/**
 * Whole runs of the trusted handoff: any number of browsers opening, delivering and cancelling the
 * same requests, interleaved at their database statements, with expiry, failures at any point, and
 * a target application that verifies what was released, as often as somebody presents it.
 */
module HandoffRuns {
  import opened Common
  import opened Handoff
  import opened HandoffTarget
  import opened Numerals
  import HandoffPath
  import Assurance
  import GlobalSession

  type Browser = nat

  datatype Stage = Signed | Won | HasJoined

  /** What a browser's request holds between two database statements. */
  datatype Flight =
    | Found(id: Id, request: Request)
    | Late(id: Id)
    | Carrying(id: Id, a: Assertion, stage: Stage)

  datatype Released = Released(id: Id, a: Assertion)
  datatype Acceptance = Acceptance(jti: Jti, at: int)

  /** The login service: rows, participants, requests in flight, and the assertions handed to browsers. */
  datatype State = State(
    now: int, requests: Table, participants: set<(Sid, ClientId)>, flights: map<Browser, Flight>,
    jtis: set<Jti>, released: seq<Released>)

  /**
   * Find and Expire are the two statements of `findPending`; Sign, Complete, Join and Release those of
   * `deliver`, with a session and member that passed the assurance check; Abandon is a crash, a signing
   * failure or a page that ends the request.
   */
  datatype Step =
    | Tick(to: int)
    | Create(id: Id, r: Request)
    | Find(b: Browser, id: Id)
    | Expire(b: Browser)
    | Sign(b: Browser, report: Assurance.Report, jti: Jti)
    | Complete(b: Browser)
    | Join(b: Browser)
    | Release(b: Browser)
    | Cancel(b: Browser)
    | Abandon(b: Browser)

  /** The registered clients, the target application, the two lifetimes in seconds, and how sessions and MFA are set up. */
  datatype Config = Config(
    clients: map<ClientId, Client>, app: App, requestTtl: nat, assertionTtl: nat,
    session: GlobalSession.Config, policy: Assurance.Policy)

  predicate IsCarrying(s: State, b: Browser, stage: Stage)
  {
    b in s.flights && s.flights[b].Carrying? && s.flights[b].stage == stage
  }

  ghost predicate Enabled(s: State, st: Step, cfg: Config)
  {
    match st
    case Tick(to) => s.now <= to
    case Create(id, r) => id !in s.requests && r.status.Pending? && r.binding.None?
    case Find(b, id) => b !in s.flights && IsPending(s.requests, id) && TargetAccepts(cfg.clients, s.requests[id].target)
    case Expire(b) => b in s.flights && s.flights[b].Late?
    case Sign(b, report, jti) => b in s.flights && s.flights[b].Found? && jti !in s.jtis && report.realm == s.flights[b].request.realm
    case Complete(b) => IsCarrying(s, b, Signed)
    case Join(b) => IsCarrying(s, b, Won)
    case Release(b) => IsCarrying(s, b, HasJoined)
    case Cancel(b) => b in s.flights && s.flights[b].Found?
    case Abandon(b) => b in s.flights
  }

  /** Member, session and assurance level are those of the report that `deliver` makes of the session. */
  function SignedAssertion(r: Request, report: Assurance.Report, jti: Jti, now: int, ttl: nat): Assertion
  {
    Assertion(r.source, r.target, r.realm, r.path, report.itsId, report.sid, report.acr == Assurance.Aal2, now / 1000, now / 1000 + ttl, jti)
  }

  ghost function Apply(s: State, st: Step, cfg: Config): State
    requires Enabled(s, st, cfg)
  {
    match st
    case Tick(to) => s.(now := to)
    case Create(id, r) => s.(requests := s.requests[id := r])
    case Find(b, id) =>
      s.(flights := s.flights[b := if s.now < s.requests[id].expiresAt then Found(id, s.requests[id]) else Late(id)])
    case Expire(b) => s.(requests := Close(s.requests, s.flights[b].id, Expired), flights := s.flights - {b})
    case Sign(b, report, jti) =>
      var f := s.flights[b];
      s.(flights := s.flights[b := Carrying(f.id, SignedAssertion(f.request, report, jti, s.now, cfg.assertionTtl), Signed)],
         jtis := s.jtis + {jti})
    case Complete(b) =>
      var f := s.flights[b];
      if IsOpen(s.requests, f.id, s.now) then
        s.(requests := CompleteRow(s.requests, f.id, Binding(f.a.itsId, f.a.sid, f.a.jti, s.now)),
           flights := s.flights[b := f.(stage := Won)])
      else s.(flights := s.flights - {b})
    case Join(b) =>
      var f := s.flights[b];
      s.(participants := s.participants + {(f.a.sid, f.a.target)}, flights := s.flights[b := f.(stage := HasJoined)])
    case Release(b) =>
      s.(released := s.released + [Released(s.flights[b].id, s.flights[b].a)], flights := s.flights - {b})
    case Cancel(b) => s.(requests := Close(s.requests, s.flights[b].id, Cancelled), flights := s.flights - {b})
    case Abandon(b) => s.(flights := s.flights - {b})
  }

  // ---- the invariant --------------------------------------------------------------------------------

  ghost predicate RowOk(s: State, r: Request)
  {
    && (r.status.Completed? <==> r.binding.Some?)
    && (r.binding.Some? ==> r.binding.value.jti in s.jtis && r.binding.value.at < r.expiresAt && r.binding.value.at <= s.now)
  }

  predicate SameJti(a: Option<Binding>, b: Option<Binding>)
  {
    a.Some? && b.Some? && a.value.jti == b.value.jti
  }

  ghost predicate RowsOk(s: State)
  {
    && (forall id :: id in s.requests ==> RowOk(s, s.requests[id]))
    && (forall id, id' | id in s.requests && id' in s.requests && id != id' ::
          !SameJti(s.requests[id].binding, s.requests[id'].binding))
  }

  /** The assertion carries the fields of the request's row and a time of signing that has passed. */
  ghost predicate Carries(s: State, id: Id, a: Assertion, cfg: Config)
  {
    && id in s.requests
    && var r := s.requests[id];
      && a.source == r.source && a.target == r.target && a.realm == r.realm && a.path == r.path
      && a.jti in s.jtis && a.iat * 1000 <= s.now && a.exp == a.iat + cfg.assertionTtl
  }

  /** The row was completed with this assertion. */
  ghost predicate Bound(s: State, id: Id, a: Assertion)
  {
    && id in s.requests && s.requests[id].binding.Some?
    && var b := s.requests[id].binding.value;
      b.itsId == a.itsId && b.sid == a.sid && b.jti == a.jti
  }

  ghost predicate FlightOk(s: State, f: Flight, cfg: Config)
  {
    match f
    case Found(id, r) =>
      && id in s.requests
      && r.source == s.requests[id].source && r.target == s.requests[id].target
      && r.realm == s.requests[id].realm && r.path == s.requests[id].path
    case Late(id) => id in s.requests
    case Carrying(id, a, stage) =>
      && Carries(s, id, a, cfg)
      && (stage.Signed? ==> forall i :: i in s.requests && s.requests[i].binding.Some? ==> s.requests[i].binding.value.jti != a.jti)
      && (!stage.Signed? ==> Bound(s, id, a))
      && (stage.HasJoined? ==> (a.sid, a.target) in s.participants)
  }

  ghost predicate FlightsOk(s: State, cfg: Config)
  {
    && (forall b :: b in s.flights ==> FlightOk(s, s.flights[b], cfg))
    && (forall b, b' :: b in s.flights && b' in s.flights && b != b' && s.flights[b].Carrying? && s.flights[b'].Carrying? ==>
          s.flights[b].a.jti != s.flights[b'].a.jti)
  }

  ghost predicate ReleasedOk(s: State, cfg: Config)
  {
    && (forall k :: 0 <= k < |s.released| ==>
          var r := s.released[k];
          Carries(s, r.id, r.a, cfg) && Bound(s, r.id, r.a) && (r.a.sid, r.a.target) in s.participants)
    && (forall k, b :: 0 <= k < |s.released| && b in s.flights && s.flights[b].Carrying? ==> s.released[k].a.jti != s.flights[b].a.jti)
    && (forall k, l :: 0 <= k < l < |s.released| ==> s.released[k].a.jti != s.released[l].a.jti)
  }

  ghost predicate Inv(s: State, cfg: Config)
  {
    RowsOk(s) && FlightsOk(s, cfg) && ReleasedOk(s, cfg)
  }

  // ---- what later states keep -----------------------------------------------------------------------

  /** A row keeps its clients, realm and path, and its status and binding once it has left PENDING. */
  ghost predicate RowGrows(r: Request, r': Request)
  {
    && r'.source == r.source && r'.target == r.target && r'.realm == r.realm && r'.path == r.path
    && r'.expiresAt == r.expiresAt
    && (!r.status.Pending? ==> r' == r)
  }

  ghost predicate Grows(s: State, s': State)
  {
    && (forall id :: id in s.requests ==> id in s'.requests && RowGrows(s.requests[id], s'.requests[id]))
    && s.now <= s'.now && s.jtis <= s'.jtis && s.participants <= s'.participants && s.released <= s'.released
  }

  lemma {:induction false} StepGrows(s: State, st: Step, cfg: Config)
    requires Inv(s, cfg) && Enabled(s, st, cfg)
    ensures Grows(s, Apply(s, st, cfg))
  {
  }

  lemma {:induction false} CarriesLater(s: State, s': State, id: Id, a: Assertion, cfg: Config)
    requires Grows(s, s') && RowsOk(s) && Carries(s, id, a, cfg)
    ensures Carries(s', id, a, cfg)
    ensures Bound(s, id, a) ==> Bound(s', id, a)
  {
  }

  lemma {:induction false} RowLater(s: State, s': State, r: Request)
    requires Grows(s, s') && RowOk(s, r)
    ensures RowOk(s', r)
  {
  }

  /** A flight that does not move stays right, unless the step completes a row with its jti. */
  lemma {:induction false} FlightLater(s: State, s': State, b: Browser, cfg: Config)
    requires Grows(s, s') && RowsOk(s) && b in s.flights && FlightOk(s, s.flights[b], cfg)
    requires forall id :: id in s'.requests && s'.requests[id].binding.Some? ==>
      || (id in s.requests && s.requests[id].binding == s'.requests[id].binding)
      || (s.flights[b].Carrying? ==> s'.requests[id].binding.value.jti != s.flights[b].a.jti)
    ensures FlightOk(s', s.flights[b], cfg)
  {
  }

  lemma {:induction false} ReleasedLater(s: State, s': State, k: nat, cfg: Config)
    requires Grows(s, s') && RowsOk(s) && ReleasedOk(s, cfg) && k < |s.released|
    ensures var r := s.released[k];
      Carries(s', r.id, r.a, cfg) && Bound(s', r.id, r.a) && (r.a.sid, r.a.target) in s'.participants
  {
  }

  // ---- every step keeps the invariant ---------------------------------------------------------------

  lemma {:induction false} RowsKept(s: State, st: Step, cfg: Config)
    requires Inv(s, cfg) && Enabled(s, st, cfg)
    ensures RowsOk(Apply(s, st, cfg))
  {
    var s' := Apply(s, st, cfg);
    StepGrows(s, st, cfg);
    forall id | id in s'.requests ensures RowOk(s', s'.requests[id]) {
      if id in s.requests { RowLater(s, s', s.requests[id]); }
      if st.Complete? { assert FlightOk(s, s.flights[st.b], cfg); }
    }
    BindingsApart(s, st, cfg);
  }

  lemma {:induction false} BindingsApart(s: State, st: Step, cfg: Config)
    requires Inv(s, cfg) && Enabled(s, st, cfg)
    ensures var t := Apply(s, st, cfg).requests;
      forall id, id' | id in t && id' in t && id != id' :: !SameJti(t[id].binding, t[id'].binding)
  {
    if st.Complete? { assert FlightOk(s, s.flights[st.b], cfg); }
  }

  /** Bindings are new only when a flight completes its row. */
  lemma {:induction false} NewBindings(s: State, st: Step, cfg: Config, id: Id)
    requires Inv(s, cfg) && Enabled(s, st, cfg)
    requires id in Apply(s, st, cfg).requests && Apply(s, st, cfg).requests[id].binding.Some?
    ensures || (id in s.requests && s.requests[id].binding == Apply(s, st, cfg).requests[id].binding)
            || (st.Complete? && Apply(s, st, cfg).requests[id].binding.value.jti == s.flights[st.b].a.jti)
  {
  }

  lemma {:induction false} StillFlying(s: State, st: Step, cfg: Config, b: Browser)
    requires Inv(s, cfg) && Enabled(s, st, cfg) && b in s.flights
    requires b in Apply(s, st, cfg).flights && Apply(s, st, cfg).flights[b] == s.flights[b]
    requires st.Complete? ==> st.b != b
    ensures FlightOk(Apply(s, st, cfg), s.flights[b], cfg)
  {
    var s' := Apply(s, st, cfg);
    StepGrows(s, st, cfg);
    forall id | id in s'.requests && s'.requests[id].binding.Some?
      ensures || (id in s.requests && s.requests[id].binding == s'.requests[id].binding)
              || (s.flights[b].Carrying? ==> s'.requests[id].binding.value.jti != s.flights[b].a.jti)
    {
      NewBindings(s, st, cfg, id);
    }
    FlightLater(s, s', b, cfg);
  }

  /** The flight that a step moves. */
  lemma {:induction false} MovedFlight(s: State, st: Step, cfg: Config)
    requires Inv(s, cfg) && Enabled(s, st, cfg)
    requires st.Find? || st.Sign? || st.Complete? || st.Join?
    requires st.b in Apply(s, st, cfg).flights
    ensures FlightOk(Apply(s, st, cfg), Apply(s, st, cfg).flights[st.b], cfg)
  {
  }

  lemma {:induction false} FlightsKept(s: State, st: Step, cfg: Config)
    requires Inv(s, cfg) && Enabled(s, st, cfg)
    ensures FlightsOk(Apply(s, st, cfg), cfg)
  {
    var s' := Apply(s, st, cfg);
    forall b | b in s'.flights ensures FlightOk(s', s'.flights[b], cfg) {
      if (st.Find? || st.Sign? || st.Complete? || st.Join?) && st.b == b {
        MovedFlight(s, st, cfg);
      } else {
        StillFlying(s, st, cfg, b);
      }
    }
    forall b, b' | b in s'.flights && b' in s'.flights && b != b' && s'.flights[b].Carrying? && s'.flights[b'].Carrying?
      ensures s'.flights[b].a.jti != s'.flights[b'].a.jti
    {
      assert b in s.flights ==> FlightOk(s, s.flights[b], cfg);
      assert b' in s.flights ==> FlightOk(s, s.flights[b'], cfg);
    }
  }

  lemma {:induction false} ReleasedKept(s: State, st: Step, cfg: Config)
    requires Inv(s, cfg) && Enabled(s, st, cfg)
    ensures ReleasedOk(Apply(s, st, cfg), cfg)
  {
    var s' := Apply(s, st, cfg);
    StepGrows(s, st, cfg);
    forall k | 0 <= k < |s'.released|
      ensures var r := s'.released[k];
        Carries(s', r.id, r.a, cfg) && Bound(s', r.id, r.a) && (r.a.sid, r.a.target) in s'.participants
    {
      if k < |s.released| { ReleasedLater(s, s', k, cfg); } else { NewlyReleased(s, st, cfg); }
    }
    ReleasedApart(s, st, cfg);
  }

  lemma {:induction false} NewlyReleased(s: State, st: Step, cfg: Config)
    requires Inv(s, cfg) && st.Release? && Enabled(s, st, cfg)
    ensures var s', f := Apply(s, st, cfg), s.flights[st.b];
      Carries(s', f.id, f.a, cfg) && Bound(s', f.id, f.a) && (f.a.sid, f.a.target) in s'.participants
  {
    StepGrows(s, st, cfg);
    assert FlightOk(s, s.flights[st.b], cfg);
    CarriesLater(s, Apply(s, st, cfg), s.flights[st.b].id, s.flights[st.b].a, cfg);
  }

  lemma {:induction false} ReleasedApart(s: State, st: Step, cfg: Config)
    requires Inv(s, cfg) && Enabled(s, st, cfg)
    ensures var s' := Apply(s, st, cfg);
      && (forall k, b :: 0 <= k < |s'.released| && b in s'.flights && s'.flights[b].Carrying? ==> s'.released[k].a.jti != s'.flights[b].a.jti)
      && (forall k, l :: 0 <= k < l < |s'.released| ==> s'.released[k].a.jti != s'.released[l].a.jti)
  {
    var s' := Apply(s, st, cfg);
    forall k, b | 0 <= k < |s'.released| && b in s'.flights && s'.flights[b].Carrying?
      ensures s'.released[k].a.jti != s'.flights[b].a.jti
    {
      if st.Sign? && st.b == b { assert Carries(s, s.released[k].id, s.released[k].a, cfg); }
    }
  }

  lemma {:induction false} StepKeeps(s: State, st: Step, cfg: Config)
    requires Inv(s, cfg) && Enabled(s, st, cfg)
    ensures Inv(Apply(s, st, cfg), cfg)
  {
    RowsKept(s, st, cfg);
    FlightsKept(s, st, cfg);
    ReleasedKept(s, st, cfg);
  }

  // ---- where requests come from ---------------------------------------------------------------------

  /** A request is created only by a call that passes every check of `createRequest`. */
  ghost predicate Checked(s: State, st: Step, cfg: Config)
  {
    st.Create? ==> exists c: Call :: Acceptable(cfg.clients, c) && st.r == NewRequest(cfg.clients, c, cfg.requestTtl, s.now)
  }

  ghost predicate SoundRows(s: State, cfg: Config)
  {
    forall id :: id in s.requests ==> Sound(cfg.clients, s.requests[id])
  }

  lemma {:induction false} SoundLater(r: Request, r': Request, cfg: Config)
    requires RowGrows(r, r') && Sound(cfg.clients, r)
    ensures Sound(cfg.clients, r')
  {
  }

  lemma {:induction false} OldRows(s: State, st: Step, cfg: Config, id: Id)
    requires Inv(s, cfg) && Enabled(s, st, cfg) && id in Apply(s, st, cfg).requests
    ensures || (id in s.requests && RowGrows(s.requests[id], Apply(s, st, cfg).requests[id]))
            || (st.Create? && Apply(s, st, cfg).requests[id] == st.r)
  {
  }

  lemma {:induction false} SoundKept(s: State, st: Step, cfg: Config)
    requires Inv(s, cfg) && SoundRows(s, cfg) && Enabled(s, st, cfg) && Checked(s, st, cfg)
    ensures SoundRows(Apply(s, st, cfg), cfg)
  {
    var s' := Apply(s, st, cfg);
    forall id | id in s'.requests ensures Sound(cfg.clients, s'.requests[id]) {
      OldRows(s, st, cfg, id);
      if id in s.requests && RowGrows(s.requests[id], s'.requests[id]) {
        SoundLater(s.requests[id], s'.requests[id], cfg);
      } else {
        var c: Call :| Acceptable(cfg.clients, c) && st.r == NewRequest(cfg.clients, c, cfg.requestTtl, s.now);
        NewRequestIsSound(cfg.clients, c, cfg.requestTtl, s.now);
      }
    }
  }

  // ---- the target -----------------------------------------------------------------------------------

  /** The service together with the target's one-time map and a log of what the target accepted. */
  datatype System = System(core: State, login: Assurance.State, seen: map<Jti, int>, accepted: seq<Acceptance>)

  /**
   * The clock, a statement of the handoff, a step of the sessions and second factors behind it, or
   * somebody presenting a released assertion to the target, for the first time or again.
   */
  datatype Event = Clock(to: int) | Move(st: Step) | Login(l: Assurance.Step) | Present(k: nat, token: Token)

  /** The interaction of a handoff's pages, codes and upgrade. */
  function Interaction(id: Id): string
  {
    "handoff:" + Decimal(id)
  }

  /** What `continue` asks of the session: the target's own default, and the member's flag as it was read. */
  function DeliveryRequest(target: Client, otpRequired: bool): Assurance.Request
  {
    Assurance.Request([], if target.defaultAcr.Some? then [target.defaultAcr.value] else [], None, otpRequired)
  }

  /** The report is the outcome of this handoff, under this target's requirement. */
  predicate Answers(report: Assurance.Report, id: Id, target: ClientId, cfg: Config)
  {
    && report.uid == Interaction(id) && target in cfg.clients
    && report.request == DeliveryRequest(cfg.clients[target], report.request.otpRequired)
  }

  /** `deliver` signs what was reported for this handoff and this target at the same clock reading. */
  predicate SignsReport(y: System, st: Step, cfg: Config)
  {
    st.Sign? ==>
      && st.b in y.core.flights && y.core.flights[st.b].Found?
      && st.report in y.login.reports && st.report.at == y.core.now
      && Answers(st.report, y.core.flights[st.b].id, y.core.flights[st.b].request.target, cfg)
  }

  ghost predicate Possible(y: System, e: Event, cfg: Config)
  {
    match e
    case Clock(to) => y.core.now <= to && y.login.sessions.now <= to
    case Move(st) => !st.Tick? && Enabled(y.core, st, cfg) && Checked(y.core, st, cfg) && SignsReport(y, st, cfg)
    case Login(l) => !l.Tick? && Assurance.Enabled(y.login, l, cfg.policy)
    case Present(k, token) => k < |y.core.released| && token.jws == Payload(y.core.released[k].a)
  }

  ghost function Next(y: System, e: Event, cfg: Config): System
    requires Possible(y, e, cfg)
  {
    match e
    case Clock(to) =>
      y.(core := Apply(y.core, Tick(to), cfg), login := Assurance.Apply(y.login, Assurance.Tick(to), cfg.session, cfg.policy))
    case Move(st) => y.(core := Apply(y.core, st, cfg))
    case Login(l) => y.(login := Assurance.Apply(y.login, l, cfg.session, cfg.policy))
    case Present(k, token) =>
      y.(seen := AfterVerify(y.seen, cfg.app, token, y.core.now),
         accepted := if Accepts(y.seen, cfg.app, token, y.core.now)
                     then y.accepted + [Acceptance(token.jws.a.jti, y.core.now)] else y.accepted)
  }

  /** The acceptance is of a released assertion, no earlier than its signing. */
  ghost predicate Backed(s: State, x: Acceptance)
  {
    x.at <= s.now && exists k :: 0 <= k < |s.released| && s.released[k].a.jti == x.jti && s.released[k].a.iat * 1000 <= x.at
  }

  /** An acceptance is remembered until more than the window has passed. */
  predicate Remembers(now: int, seen: map<Jti, int>, x: Acceptance)
  {
    now - x.at > WINDOW || (x.jti in seen && seen[x.jti] == x.at)
  }

  ghost predicate TargetOk(y: System)
  {
    && (forall n :: 0 <= n < |y.accepted| ==> Backed(y.core, y.accepted[n]))
    && (forall n :: 0 <= n < |y.accepted| ==> Remembers(y.core.now, y.seen, y.accepted[n]))
  }

  ghost predicate AcceptedApart(y: System)
  {
    forall n, m :: 0 <= n < m < |y.accepted| ==> y.accepted[n].jti != y.accepted[m].jti
  }

  /** The assertion says what the report of its handoff, of that time, says. */
  predicate Says(id: Id, a: Assertion, report: Assurance.Report, cfg: Config)
  {
    && a.sid == report.sid && a.itsId == report.itsId && a.realm == report.realm
    && a.iat == report.at / 1000 && (a.aal2 <==> report.acr == Assurance.Aal2)
    && Answers(report, id, a.target, cfg)
  }

  ghost predicate Reported(y: System, id: Id, a: Assertion, cfg: Config)
  {
    exists n :: 0 <= n < |y.login.reports| && Says(id, a, y.login.reports[n], cfg)
  }

  ghost predicate AllReported(y: System, cfg: Config)
  {
    && (forall b | b in y.core.flights && y.core.flights[b].Carrying? :: Reported(y, y.core.flights[b].id, y.core.flights[b].a, cfg))
    && (forall k :: 0 <= k < |y.core.released| ==> Reported(y, y.core.released[k].id, y.core.released[k].a, cfg))
  }

  predicate OneClock(y: System)
  {
    y.core.now == y.login.sessions.now
  }

  ghost predicate PartsInv(y: System, cfg: Config)
  {
    && Assurance.Inv(y.login, cfg.session, cfg.policy) && AllReported(y, cfg)
    && Inv(y.core, cfg) && SoundRows(y.core, cfg) && TargetOk(y)
    && (cfg.assertionTtl + TOLERANCE <= WINDOW / 1000 ==> AcceptedApart(y))
  }

  ghost predicate SystemInv(y: System, cfg: Config)
  {
    OneClock(y) && PartsInv(y, cfg)
  }

  lemma {:induction false} BackedLater(s: State, s': State, x: Acceptance)
    requires Grows(s, s') && Backed(s, x)
    ensures Backed(s', x)
  {
  }

  lemma {:induction false} RememberedLater(seen: map<Jti, int>, app: App, token: Token, now: int, x: Acceptance)
    requires x.at <= now && Remembers(now, seen, x)
    ensures Remembers(now, AfterVerify(seen, app, token, now), x)
  {
  }

  /** What a step carries on or releases was carried before, except for a new signature. */
  lemma {:induction false} CarriedBefore(s: State, st: Step, cfg: Config, b: Browser)
    requires Inv(s, cfg) && Enabled(s, st, cfg) && b in Apply(s, st, cfg).flights && Apply(s, st, cfg).flights[b].Carrying?
    ensures || (st.Sign? && st.b == b && s.flights[b].Found?
                && Apply(s, st, cfg).flights[b].id == s.flights[b].id
                && Apply(s, st, cfg).flights[b].a == SignedAssertion(s.flights[b].request, st.report, st.jti, s.now, cfg.assertionTtl))
            || (b in s.flights && s.flights[b].Carrying?
                && Apply(s, st, cfg).flights[b].id == s.flights[b].id && Apply(s, st, cfg).flights[b].a == s.flights[b].a)
  {
  }

  lemma {:induction false} ReleasedBefore(s: State, st: Step, cfg: Config, k: nat)
    requires Enabled(s, st, cfg) && k < |Apply(s, st, cfg).released|
    ensures || (k < |s.released| && Apply(s, st, cfg).released[k] == s.released[k])
            || (st.Release? && Apply(s, st, cfg).released[k] == Released(s.flights[st.b].id, s.flights[st.b].a))
  {
  }

  lemma {:induction false} MoveReports(y: System, st: Step, cfg: Config)
    requires AllReported(y, cfg) && Inv(y.core, cfg) && Enabled(y.core, st, cfg) && SignsReport(y, st, cfg)
    ensures AllReported(y.(core := Apply(y.core, st, cfg)), cfg)
  {
    var y' := y.(core := Apply(y.core, st, cfg));
    forall b | b in y'.core.flights && y'.core.flights[b].Carrying?
      ensures Reported(y', y'.core.flights[b].id, y'.core.flights[b].a, cfg)
    {
      CarriedBefore(y.core, st, cfg, b);
      if b in y.core.flights && y.core.flights[b].Carrying? {
        assert Reported(y, y.core.flights[b].id, y.core.flights[b].a, cfg);
      } else {
        SignedIsReported(y, y', st, cfg);
      }
    }
    forall k | 0 <= k < |y'.core.released| ensures Reported(y', y'.core.released[k].id, y'.core.released[k].a, cfg) {
      ReleasedBefore(y.core, st, cfg, k);
      if k < |y.core.released| {
        assert Reported(y, y.core.released[k].id, y.core.released[k].a, cfg);
      } else {
        assert Reported(y, y.core.flights[st.b].id, y.core.flights[st.b].a, cfg);
      }
    }
  }

  lemma {:induction false} SignedIsReported(y: System, y': System, st: Step, cfg: Config)
    requires st.Sign? && Enabled(y.core, st, cfg) && SignsReport(y, st, cfg) && y'.login == y.login
    ensures var f := y.core.flights[st.b];
      Reported(y', f.id, SignedAssertion(f.request, st.report, st.jti, y.core.now, cfg.assertionTtl), cfg)
  {
    var f := y.core.flights[st.b];
    var n :| 0 <= n < |y.login.reports| && y.login.reports[n] == st.report;
    assert Says(f.id, SignedAssertion(f.request, st.report, st.jti, y.core.now, cfg.assertionTtl), y'.login.reports[n], cfg);
  }

  lemma {:induction false} ReportedLater(y: System, y': System, id: Id, a: Assertion, cfg: Config)
    requires y.login.reports <= y'.login.reports && Reported(y, id, a, cfg)
    ensures Reported(y', id, a, cfg)
  {
    var n :| 0 <= n < |y.login.reports| && Says(id, a, y.login.reports[n], cfg);
    assert y'.login.reports[n] == y.login.reports[n];
  }

  lemma {:induction false} LoginReports(y: System, y': System, cfg: Config)
    requires AllReported(y, cfg) && y'.core == y.core && y.login.reports <= y'.login.reports
    ensures AllReported(y', cfg)
  {
    forall b | b in y.core.flights && y.core.flights[b].Carrying?
      ensures Reported(y', y.core.flights[b].id, y.core.flights[b].a, cfg)
    {
      ReportedLater(y, y', y.core.flights[b].id, y.core.flights[b].a, cfg);
    }
    forall k | 0 <= k < |y.core.released| ensures Reported(y', y.core.released[k].id, y.core.released[k].a, cfg) {
      ReportedLater(y, y', y.core.released[k].id, y.core.released[k].a, cfg);
    }
  }

  lemma {:induction false} LoginKeeps(y: System, l: Assurance.Step, cfg: Config)
    requires PartsInv(y, cfg) && cfg.session.Valid() && Assurance.Enabled(y.login, l, cfg.policy)
    ensures PartsInv(y.(login := Assurance.Apply(y.login, l, cfg.session, cfg.policy)), cfg)
  {
    Assurance.StepKeeps(y.login, l, cfg.session, cfg.policy);
    Assurance.ReportsGrow(y.login, l, cfg.session, cfg.policy);
    LoginReports(y, y.(login := Assurance.Apply(y.login, l, cfg.session, cfg.policy)), cfg);
  }

  lemma {:induction false} MoveKeepsTarget(y: System, st: Step, cfg: Config)
    requires Inv(y.core, cfg) && TargetOk(y) && Enabled(y.core, st, cfg)
    ensures TargetOk(y.(core := Apply(y.core, st, cfg)))
  {
    var y' := y.(core := Apply(y.core, st, cfg));
    StepGrows(y.core, st, cfg);
    forall n | 0 <= n < |y.accepted| ensures Backed(y'.core, y.accepted[n]) { BackedLater(y.core, y'.core, y.accepted[n]); }
    forall n | 0 <= n < |y.accepted| ensures Remembers(y'.core.now, y'.seen, y.accepted[n]) {
      assert Remembers(y.core.now, y.seen, y.accepted[n]);
    }
  }

  lemma {:induction false} MoveKeeps(y: System, st: Step, cfg: Config)
    requires PartsInv(y, cfg) && Enabled(y.core, st, cfg) && Checked(y.core, st, cfg) && SignsReport(y, st, cfg)
    ensures PartsInv(y.(core := Apply(y.core, st, cfg)), cfg)
  {
    StepKeeps(y.core, st, cfg);
    SoundKept(y.core, st, cfg);
    MoveReports(y, st, cfg);
    MoveKeepsTarget(y, st, cfg);
  }

  lemma {:induction false} ClockKeeps(y: System, to: int, cfg: Config)
    requires SystemInv(y, cfg) && cfg.session.Valid() && y.core.now <= to
    ensures SystemInv(Next(y, Clock(to), cfg), cfg)
  {
    MoveKeeps(y, Tick(to), cfg);
    LoginKeeps(y.(core := Apply(y.core, Tick(to), cfg)), Assurance.Tick(to), cfg);
  }

  /** Only the clock moves the clock. */
  lemma {:induction false} ClockStays(y: System, e: Event, cfg: Config)
    requires OneClock(y) && Possible(y, e, cfg) && !e.Clock?
    ensures OneClock(Next(y, e, cfg))
  {
    if e.Login? { Assurance.ClockStays(y.login, e.l, cfg.session, cfg.policy); }
  }

  lemma {:induction false} AcceptedIsNew(seen: map<Jti, int>, app: App, token: Token, now: int)
    requires Accepts(seen, app, token, now)
    ensures token.jws.Payload? && InTime(token.jws.a.exp, now) && token.jws.a.jti !in Pruned(seen, now)
    ensures Remembers(now, AfterVerify(seen, app, token, now), Acceptance(token.jws.a.jti, now))
  {
  }

  lemma {:induction false} AppendKeepsTarget(y: System, y': System, x: Acceptance)
    requires TargetOk(y) && y' == System(y.core, y.login, y'.seen, y.accepted + [x])
    requires Backed(y.core, x) && Remembers(y.core.now, y'.seen, x)
    requires forall n :: 0 <= n < |y.accepted| ==> Remembers(y.core.now, y'.seen, y.accepted[n])
    ensures TargetOk(y')
  {
  }

  lemma {:induction false} AppendKeepsApart(y: System, y': System, k: nat, cfg: Config)
    requires Inv(y.core, cfg) && TargetOk(y) && AcceptedApart(y) && cfg.assertionTtl + TOLERANCE <= WINDOW / 1000
    requires k < |y.core.released| && InTime(y.core.released[k].a.exp, y.core.now)
    requires y.core.released[k].a.jti !in Pruned(y.seen, y.core.now)
    requires y'.accepted == y.accepted + [Acceptance(y.core.released[k].a.jti, y.core.now)]
    ensures AcceptedApart(y')
  {
  }

  lemma {:induction false} ReleasedIsBacked(s: State, k: nat, cfg: Config)
    requires ReleasedOk(s, cfg) && k < |s.released|
    ensures Backed(s, Acceptance(s.released[k].a.jti, s.now))
  {
  }

  lemma {:induction false} PresentKeepsTarget(y: System, y': System, k: nat, token: Token, cfg: Config)
    requires Inv(y.core, cfg) && TargetOk(y) && (cfg.assertionTtl + TOLERANCE <= WINDOW / 1000 ==> AcceptedApart(y))
    requires k < |y.core.released| && token.jws == Payload(y.core.released[k].a)
    requires y'.core == y.core && y'.login == y.login && y'.seen == AfterVerify(y.seen, cfg.app, token, y.core.now)
    requires y'.accepted == if Accepts(y.seen, cfg.app, token, y.core.now)
                            then y.accepted + [Acceptance(token.jws.a.jti, y.core.now)] else y.accepted
    ensures TargetOk(y') && (cfg.assertionTtl + TOLERANCE <= WINDOW / 1000 ==> AcceptedApart(y'))
  {
    forall n | 0 <= n < |y.accepted| ensures Remembers(y.core.now, y'.seen, y.accepted[n]) {
      assert Backed(y.core, y.accepted[n]);
      RememberedLater(y.seen, cfg.app, token, y.core.now, y.accepted[n]);
    }
    if Accepts(y.seen, cfg.app, token, y.core.now) {
      AcceptedIsNew(y.seen, cfg.app, token, y.core.now);
      ReleasedIsBacked(y.core, k, cfg);
      AppendKeepsTarget(y, y', Acceptance(token.jws.a.jti, y.core.now));
      if cfg.assertionTtl + TOLERANCE <= WINDOW / 1000 { AppendKeepsApart(y, y', k, cfg); }
    }
  }

  lemma {:induction false} PresentKeeps(y: System, k: nat, token: Token, cfg: Config)
    requires SystemInv(y, cfg) && Possible(y, Present(k, token), cfg)
    ensures PartsInv(Next(y, Present(k, token), cfg), cfg)
  {
    var y' := Next(y, Present(k, token), cfg);
    PresentKeepsTarget(y, y', k, token, cfg);
    LoginReports(y, y', cfg);
  }

  lemma {:induction false} NextGrows(y: System, e: Event, cfg: Config)
    requires SystemInv(y, cfg) && Possible(y, e, cfg)
    ensures Grows(y.core, Next(y, e, cfg).core)
  {
    if e.Move? { StepGrows(y.core, e.st, cfg); }
    if e.Clock? { StepGrows(y.core, Tick(e.to), cfg); }
  }

  // ---- runs -----------------------------------------------------------------------------------------

  /** Nobody asked for a handoff yet. */
  ghost predicate Start(y: System)
  {
    && Assurance.Initial(y.login) && OneClock(y)
    && y.core.requests == map[] && y.core.participants == {} && y.core.flights == map[]
    && y.core.released == [] && y.seen == map[] && y.accepted == []
  }

  ghost predicate Happens(y: System, e: Event, y': System, cfg: Config)
  {
    Possible(y, e, cfg) && y' == Next(y, e, cfg)
  }

  ghost predicate IsRun(tr: seq<System>, events: seq<Event>, cfg: Config)
  {
    && |tr| == |events| + 1 && cfg.session.Valid() && Start(tr[0])
    && forall i {:trigger events[i]} | 0 <= i < |events| :: Happens(tr[i], events[i], tr[i + 1], cfg)
  }

  /** One event of a run. */
  lemma {:induction false} EventOf(tr: seq<System>, events: seq<Event>, cfg: Config, i: nat)
    requires IsRun(tr, events, cfg) && i < |events|
    ensures Happens(tr[i], events[i], tr[i + 1], cfg)
  {
  }

  lemma {:induction false} EventKeeps(y: System, e: Event, cfg: Config)
    requires SystemInv(y, cfg) && cfg.session.Valid() && Possible(y, e, cfg)
    ensures SystemInv(Next(y, e, cfg), cfg)
  {
    if !e.Clock? { ClockStays(y, e, cfg); }
    match e
    case Clock(to) => ClockKeeps(y, to, cfg);
    case Move(st) => MoveKeeps(y, st, cfg);
    case Login(l) => LoginKeeps(y, l, cfg);
    case Present(k, token) => PresentKeeps(y, k, token, cfg);
  }

  lemma {:induction false} StartOk(y: System, cfg: Config)
    requires Start(y)
    ensures SystemInv(y, cfg)
  {
    Assurance.InitialOk(y.login, cfg.session, cfg.policy);
  }

  lemma {:induction false} Reachable(tr: seq<System>, events: seq<Event>, cfg: Config, i: nat)
    requires IsRun(tr, events, cfg) && i < |tr|
    ensures SystemInv(tr[i], cfg)
  {
    if i == 0 {
      StartOk(tr[0], cfg);
    } else {
      Reachable(tr, events, cfg, i - 1);
      EventOf(tr, events, cfg, i - 1);
      EventKeeps(tr[i - 1], events[i - 1], cfg);
    }
  }

  /**
   * At most one assertion leaves the service per request, under any interleaving of browsers,
   * cancellation, expiry and failures.
   */
  lemma {:induction false} ReleasedOnce(tr: seq<System>, events: seq<Event>, cfg: Config, i: nat, k: nat, l: nat)
    requires IsRun(tr, events, cfg) && i < |tr| && k < |tr[i].core.released| && l < |tr[i].core.released|
    requires tr[i].core.released[k].id == tr[i].core.released[l].id
    ensures k == l
  {
    Reachable(tr, events, cfg, i);
    var s := tr[i].core;
    assert Bound(s, s.released[k].id, s.released[k].a) && Bound(s, s.released[l].id, s.released[l].a);
  }

  /**
   * A released assertion says what the completed row says, was completed before the request expired,
   * and its target already takes part in the session it names. Its path survives the target's own
   * normalization and was on the target's allowlist, and both clients share the realm it names.
   */
  lemma {:induction false} ReleasedIsBound(tr: seq<System>, events: seq<Event>, cfg: Config, i: nat, k: nat)
    requires IsRun(tr, events, cfg) && i < |tr| && k < |tr[i].core.released|
    ensures var s, id, a := tr[i].core, tr[i].core.released[k].id, tr[i].core.released[k].a;
      && id in s.requests && s.requests[id].status.Completed? && s.requests[id].binding.Some?
      && var b := s.requests[id].binding.value;
        && a.itsId == b.itsId && a.sid == b.sid && a.jti == b.jti && b.at < s.requests[id].expiresAt
        && (a.sid, a.target) in s.participants
        && a.path == s.requests[id].path && a.target == s.requests[id].target && a.source == s.requests[id].source
    ensures var a := tr[i].core.released[k].a;
      && HandoffPath.Normalize(Some(a.path)) == Some(a.path)
      && a.source in cfg.clients && a.target in cfg.clients && a.source != a.target
      && cfg.clients[a.source].realm == cfg.clients[a.target].realm == Some(a.realm)
      && HandoffPath.IsAllowedPath(a.path, cfg.clients[a.target].patterns)
  {
    Reachable(tr, events, cfg, i);
    var s := tr[i].core;
    var r := s.released[k];
    assert Carries(s, r.id, r.a, cfg) && Bound(s, r.id, r.a);
    assert RowOk(s, s.requests[r.id]);
    assert Sound(cfg.clients, s.requests[r.id]);
  }

  /** Only `createRequest` sets when a request expires. */
  lemma {:induction false} RowExpiry(s: State, st: Step, cfg: Config, id: Id)
    requires Inv(s, cfg) && Enabled(s, st, cfg) && Checked(s, st, cfg) && id in Apply(s, st, cfg).requests
    ensures || (id in s.requests && Apply(s, st, cfg).requests[id].expiresAt == s.requests[id].expiresAt)
            || (st.Create? && st.id == id && Apply(s, st, cfg).requests[id].expiresAt == s.now + 1000 * cfg.requestTtl)
  {
    OldRows(s, st, cfg, id);
    if id !in s.requests {
      var c: Call :| Acceptable(cfg.clients, c) && st.r == NewRequest(cfg.clients, c, cfg.requestTtl, s.now);
      NewRequestIsSound(cfg.clients, c, cfg.requestTtl, s.now);
    }
  }

  lemma {:induction false} ExpiryBefore(y: System, e: Event, y': System, cfg: Config, id: Id)
    requires SystemInv(y, cfg) && Happens(y, e, y', cfg) && id in y'.core.requests
    ensures || (id in y.core.requests && y'.core.requests[id].expiresAt == y.core.requests[id].expiresAt)
            || (e.Move? && e.st.Create? && e.st.id == id && y'.core.requests[id].expiresAt == y.core.now + 1000 * cfg.requestTtl)
  {
    if e.Move? { RowExpiry(y.core, e.st, cfg, id); }
  }

  /** The event that created a request. */
  lemma {:induction false} CreatedAt(tr: seq<System>, events: seq<Event>, cfg: Config, i: nat, id: Id) returns (n: nat)
    requires IsRun(tr, events, cfg) && i < |tr| && id in tr[i].core.requests
    ensures n < i && events[n].Move? && events[n].st.Create? && events[n].st.id == id
    ensures tr[i].core.requests[id].expiresAt == tr[n].core.now + 1000 * cfg.requestTtl
  {
    NoneAtStart(tr, events, cfg);
    ExpiryStep(tr, events, cfg, i - 1, id);
    if SameExpiry(tr[i - 1].core, tr[i].core, id) {
      n := CreatedAt(tr, events, cfg, i - 1, id);
    } else {
      n := i - 1;
    }
  }

  predicate SameExpiry(s: State, s': State, id: Id)
  {
    id in s.requests && id in s'.requests && s'.requests[id].expiresAt == s.requests[id].expiresAt
  }

  predicate Creates(s: State, e: Event, s': State, cfg: Config, id: Id)
  {
    && e.Move? && e.st.Create? && e.st.id == id
    && id in s'.requests && s'.requests[id].expiresAt == s.now + 1000 * cfg.requestTtl
  }

  lemma {:induction false} ExpiryStep(tr: seq<System>, events: seq<Event>, cfg: Config, i: nat, id: Id)
    requires IsRun(tr, events, cfg) && i + 1 < |tr| && id in tr[i + 1].core.requests
    ensures SameExpiry(tr[i].core, tr[i + 1].core, id) || Creates(tr[i].core, events[i], tr[i + 1].core, cfg, id)
  {
    Reachable(tr, events, cfg, i);
    EventOf(tr, events, cfg, i);
    ExpiryBefore(tr[i], events[i], tr[i + 1], cfg, id);
  }

  lemma {:induction false} NoneAtStart(tr: seq<System>, events: seq<Event>, cfg: Config)
    requires IsRun(tr, events, cfg)
    ensures tr[0].core.requests == map[]
  {
  }

  /**
   * A released assertion completed its request less than HANDOFF_REQUEST_TTL_SECONDS after the request
   * was created, between clients that may hand off and receive, and lives HANDOFF_ASSERTION_TTL_SECONDS
   * from its signing.
   */
  lemma {:induction false} ReleasedInTime(tr: seq<System>, events: seq<Event>, cfg: Config, i: nat, k: nat) returns (n: nat)
    requires IsRun(tr, events, cfg) && i < |tr| && k < |tr[i].core.released|
    ensures n < i && events[n].Move? && events[n].st.Create? && events[n].st.id == tr[i].core.released[k].id
    ensures var s, id, a := tr[i].core, tr[i].core.released[k].id, tr[i].core.released[k].a;
      && id in s.requests && s.requests[id].binding.Some?
      && s.requests[id].binding.value.at < tr[n].core.now + 1000 * cfg.requestTtl
      && 1000 * a.iat <= s.now && a.exp == a.iat + cfg.assertionTtl
      && a.source in cfg.clients && cfg.clients[a.source].active && cfg.clients[a.source].outbound
      && a.target in cfg.clients && cfg.clients[a.target].active && cfg.clients[a.target].inbound && cfg.clients[a.target].hasCallback
  {
    var r := tr[i].core.released[k];
    ReleasedIsBound(tr, events, cfg, i, k);
    Reachable(tr, events, cfg, i);
    assert Carries(tr[i].core, r.id, r.a, cfg);
    assert Sound(cfg.clients, tr[i].core.requests[r.id]);
    n := CreatedAt(tr, events, cfg, i, r.id);
  }

  /**
   * A released assertion reports what its own delivery found: AAL2 whenever the policy, the target's
   * default or the member's flag requires it, and AAL2 only within MFA_MAX_AGE_SECONDS of an upgrade of
   * that very session, which rests on a code verified for that member and session.
   */
  lemma {:induction false} ReleasedIsAssured(tr: seq<System>, events: seq<Event>, cfg: Config, i: nat, k: nat)
    returns (report: Assurance.Report)
    requires IsRun(tr, events, cfg) && i < |tr| && k < |tr[i].core.released|
    ensures report in tr[i].login.reports && Says(tr[i].core.released[k].id, tr[i].core.released[k].a, report, cfg)
    ensures tr[i].core.released[k].a.target in cfg.clients
    ensures || cfg.policy.requiredForAll
            || cfg.clients[tr[i].core.released[k].a.target].defaultAcr == Some(Assurance.Aal2)
            || (cfg.policy.honorFlag && report.request.otpRequired)
            ==> tr[i].core.released[k].a.aal2
    ensures tr[i].core.released[k].a.aal2 ==>
      exists u :: u in tr[i].login.raises && Assurance.Supports(tr[i].login, u, report, cfg.policy)
  {
    Reachable(tr, events, cfg, i);
    var y := tr[i];
    report := ReleasedReport(y, k, cfg);
    Assurance.HonestIsSupported(y.login, cfg.session, cfg.policy, report);
    RequiredBy(cfg.policy, cfg.clients[y.core.released[k].a.target], report.request.otpRequired);
  }

  lemma {:induction false} ReleasedReport(y: System, k: nat, cfg: Config) returns (report: Assurance.Report)
    requires AllReported(y, cfg) && k < |y.core.released|
    ensures report in y.login.reports && Says(y.core.released[k].id, y.core.released[k].a, report, cfg)
  {
    assert Reported(y, y.core.released[k].id, y.core.released[k].a, cfg);
    var n :| 0 <= n < |y.login.reports| && Says(y.core.released[k].id, y.core.released[k].a, y.login.reports[n], cfg);
    report := y.login.reports[n];
  }

  /** When a delivery needs AAL2. */
  lemma {:induction false} RequiredBy(p: Assurance.Policy, target: Client, otpRequired: bool)
    ensures Assurance.IsRequired(p, DeliveryRequest(target, otpRequired)) <==>
      p.requiredForAll || target.defaultAcr == Some(Assurance.Aal2) || (p.honorFlag && otpRequired)
  {
  }

  lemma {:induction false} ClosedStays(tr: seq<System>, events: seq<Event>, cfg: Config, i: nat, id: Id)
    requires IsRun(tr, events, cfg) && i + 1 < |tr|
    requires id in tr[i].core.requests && !tr[i].core.requests[id].status.Pending?
    ensures id in tr[i + 1].core.requests && tr[i + 1].core.requests[id] == tr[i].core.requests[id]
  {
    Reachable(tr, events, cfg, i);
    EventOf(tr, events, cfg, i);
    NextGrows(tr[i], events[i], cfg);
    ClosedRow(tr[i].core, tr[i + 1].core, id);
  }

  lemma {:induction false} ClosedRow(s: State, s': State, id: Id)
    requires Grows(s, s') && id in s.requests && !s.requests[id].status.Pending?
    ensures id in s'.requests && s'.requests[id] == s.requests[id]
  {
    assert RowGrows(s.requests[id], s'.requests[id]);
  }

  /** A request that has left PENDING never changes again. */
  lemma {:induction false} ClosedForEver(tr: seq<System>, events: seq<Event>, cfg: Config, i: nat, j: nat, id: Id)
    requires IsRun(tr, events, cfg) && i <= j < |tr|
    requires id in tr[i].core.requests && !tr[i].core.requests[id].status.Pending?
    ensures id in tr[j].core.requests && tr[j].core.requests[id] == tr[i].core.requests[id]
    decreases j
  {
    if i < j {
      ClosedForEver(tr, events, cfg, i, j - 1, id);
      ClosedStays(tr, events, cfg, j - 1, id);
    }
  }

  /** Acceptance n is of an assertion released for this request. */
  ghost predicate AcceptedFor(y: System, n: nat, id: Id)
    requires n < |y.accepted|
  {
    exists k :: 0 <= k < |y.core.released| && y.core.released[k].id == id && y.core.released[k].a.jti == y.accepted[n].jti
  }

  /**
   * Handoff is one-time end to end: when the lifetime plus the tolerance fits into the replay window,
   * the target accepts at most one presentation per request, however often and whenever it is presented.
   */
  lemma {:induction false} AcceptedOnce(tr: seq<System>, events: seq<Event>, cfg: Config, i: nat, n: nat, m: nat, id: Id)
    requires IsRun(tr, events, cfg) && i < |tr| && cfg.assertionTtl + 30 <= 120
    requires n < |tr[i].accepted| && m < |tr[i].accepted|
    requires AcceptedFor(tr[i], n, id) && AcceptedFor(tr[i], m, id)
    ensures n == m
  {
    Reachable(tr, events, cfg, i);
    var s := tr[i].core;
    var k :| 0 <= k < |s.released| && s.released[k].id == id && s.released[k].a.jti == tr[i].accepted[n].jti;
    var l :| 0 <= l < |s.released| && s.released[l].id == id && s.released[l].a.jti == tr[i].accepted[m].jti;
    ReleasedOnce(tr, events, cfg, i, k, l);
  }
}
