/**
 * When a second factor is required, when an earlier one still counts, and what a finished
 * authorization or a delivered handoff may report, over whole runs of the session store together with
 * the one-time codes and the TOTP factors that prove the second factor.
 */
module Assurance {
  import opened Common
  import opened GlobalSession
  import opened Numerals
  import Runs = SessionRuns
  import Otps = OtpChallenge
  import Totps = Totp

  datatype Acr = Aal1 | Aal2 | OtherAcr

  /** MFA_REQUIRED_FOR_ALL, MFA_HONOR_USER_OTP_FLAG, MFA_MAX_AGE_SECONDS (at least 60), and HMAC-SHA1. */
  datatype Policy = Policy(requiredForAll: bool, honorFlag: bool, cap: nat, hmac: Totps.Hmac)

  /** acr_values of the request, the client's default, mfa_max_age (None when not a number), the member's flag. */
  datatype Request = Request(acrs: seq<Acr>, defaults: seq<Acr>, maxAge: Option<int>, otpRequired: bool)

  function Requested(r: Request): seq<Acr>
  {
    if r.acrs != [] then r.acrs else r.defaults
  }

  predicate IsRequired(p: Policy, r: Request)
  {
    if p.requiredForAll then true
    else if Aal2 in Requested(r) then true
    else p.honorFlag && r.otpRequired
  }

  function EffectiveMaxAge(p: Policy, r: Request): (age: nat)
    ensures age <= p.cap
    ensures r.maxAge.Some? && r.maxAge.value > 0 ==> age <= r.maxAge.value
    ensures age == p.cap || (r.maxAge.Some? && 0 < r.maxAge.value == age)
  {
    if r.maxAge.Some? && r.maxAge.value != 0 && r.maxAge.value > 0 then Min(r.maxAge.value, p.cap) else p.cap
  }

  predicate IsFresh(s: Session, maxAge: nat, now: int)
  {
    s.aal >= 2 && s.mfaAt.Some? && now - s.mfaAt.value <= maxAge * 1000
  }

  /** What `finish` and `deliver` put into the result. */
  function ReportedAcr(p: Policy, s: Session, now: int): Acr
  {
    if IsFresh(s, p.cap, now) then Aal2 else Aal1
  }

  /** A result: whose session, when, the level it reports, and the interaction and request it answers. */
  datatype Report = Report(sid: Sid, itsId: string, realm: Realm, at: int, acr: Acr, uid: string, request: Request)

  function MakeReport(p: Policy, s: Session, uid: string, r: Request, now: int): Report
  {
    Report(s.sid, s.itsId, s.realm, now, ReportedAcr(p, s, now), uid, r)
  }

  // ---- requests that verify a second factor ------------------------------------------------------------

  /** The code submitted, without its white space: for an OTP challenge, or for the TOTP factor of the member. */
  datatype Via = ByOtp(v: nat, id: Otps.Id, code: string) | ByTotp(code: string)

  /** What proved the second factor, and when: a verified OTP consumed then, or an accepted TOTP code checked then. */
  datatype Proof = OtpProof(v: nat) | TotpProof(m: Totps.Match)
  datatype Proven = Proven(proof: Proof, at: int)

  /** `verifyMfa`: the session it loaded, the interaction, and the proof once `mfa.verify` returned ok. */
  datatype Mfa = Mfa(realm: Realm, cookie: Option<Hash>, session: Session, uid: string, r: Request, via: Via, proven: Option<Proven>)

  /** A successful upgradeToAal2: when it ran, and the proof it rests on. */
  datatype Raise = Raise(sid: Sid, itsId: string, uid: string, at: int, proven: Proven)

  /** Challenges name the session by its identifier as text. */
  function SidText(sid: Sid): string
  {
    Decimal(sid)
  }

  function OwnerOf(itsId: string, sid: Sid, uid: string): Otps.Owner
  {
    Otps.Owner(itsId, SidText(sid), uid)
  }

  function AskerOf(sid: Sid, uid: string): Totps.Asker
  {
    Totps.Asker(SidText(sid), uid)
  }

  /** `totp` holds the members' factors; `raises` and `reports` every upgrade and every finished result, in order. */
  datatype State = State(
    sessions: Runs.State, otp: Otps.State, totp: map<string, Totps.State>, mfa: map<nat, Mfa>,
    raises: seq<Raise>, reports: seq<Report>)

  /**
   * Pass is a request that reaches afterPrimary (or the handoff's continue) with a session. Begin to
   * Raise are the steps of a request to verifyMfa: the session is loaded and the code submitted, the
   * verification runs in the OTP or TOTP protocol, its ok is noticed, and upgradeToAal2 runs last.
   */
  datatype Step =
    | Tick(to: int)
    | OnSession(o: Runs.Step)
    | OnOtp(c: Otps.Step)
    | Pass(realm: Realm, cookie: Option<Hash>, uid: string, r: Request)
    | Begin(q: nat, realm: Realm, cookie: Option<Hash>, uid: string, r: Request, via: Via)
    | NoticeOtp(q: nat)
    | MatchTotp(q: nat, m: Totps.Match)
    | AskTotp(q: nat)
    | RaiseLevel(q: nat, hash: Hash)
    | GiveUp(q: nat)

  /** No request of this name is under way, and none left a match behind. */
  ghost predicate FreshName(s: State, q: nat)
  {
    q !in s.mfa && forall its | its in s.totp :: q !in s.totp[its].pending
  }

  ghost predicate Enabled(s: State, st: Step, p: Policy)
  {
    var now := s.sessions.now;
    match st
    case Tick(to) => now <= to
    case OnSession(o) => !o.StepUp? && !o.Wait? && Runs.Enabled(s.sessions, o)
    case OnOtp(c) => !c.Wait? && !c.Submit? && Otps.Enabled(s.otp, c)
    case Pass(realm, cookie, _, _) => Load(s.sessions.store, realm, cookie, now).Some?
    case Begin(q, realm, cookie, _, _, via) =>
      FreshName(s, q) && Load(s.sessions.store, realm, cookie, now).Some? && (via.ByOtp? ==> via.v !in s.otp.running)
    case NoticeOtp(q) =>
      && q in s.mfa && s.mfa[q].via.ByOtp? && s.mfa[q].proven.None? && Otps.IsVerified(s.otp, s.mfa[q].via.v)
      && s.otp.running[s.mfa[q].via.v].id in s.otp.rows && s.otp.rows[s.otp.running[s.mfa[q].via.v].id].consumedAt.Some?
    case MatchTotp(q, m) =>
      && q in s.mfa && s.mfa[q].via.ByTotp? && s.mfa[q].proven.None? && s.mfa[q].session.itsId in s.totp
      && m.asker == AskerOf(s.mfa[q].session.sid, s.mfa[q].uid) && m.code == s.mfa[q].via.code
      && m.checkedAt == now && Totps.Possible(s.totp[s.mfa[q].session.itsId], Totps.Matched(q, m), p.hmac)
    case AskTotp(q) =>
      && q in s.mfa && s.mfa[q].via.ByTotp? && s.mfa[q].proven.None? && s.mfa[q].session.itsId in s.totp
      && Totps.Possible(s.totp[s.mfa[q].session.itsId], Totps.Asks(q), p.hmac)
    case RaiseLevel(q, hash) => q in s.mfa && s.mfa[q].proven.Some? && hash !in s.sessions.issued
    case GiveUp(q) => q in s.mfa
  }

  function MethodOf(x: Mfa, c: Otps.State): Method
  {
    if x.via.ByOtp? && Otps.IsVerified(c, x.via.v)
    then if c.running[x.via.v].phase.verdict.channel.Email? then EmailOtp else SmsOtp
    else GlobalSession.Totp
  }

  /** The end of a request to verifyMfa: the upgrade, which refuses another session, and the result. */
  ghost function Raised(s: State, q: nat, hash: Hash, cfg: Config, p: Policy): State
    requires q in s.mfa && s.mfa[q].proven.Some?
  {
    var now, x := s.sessions.now, s.mfa[q];
    var m := MethodOf(x, s.otp);
    var after := s.(sessions := Runs.Apply(s.sessions, Runs.StepUp(x.realm, x.session.sid, m, x.cookie, hash), cfg), mfa := s.mfa - {q});
    if !UpgradeAllowed(s.sessions.store, x.realm, x.session.sid, x.cookie, now) then after   // session changed during MFA
    else
      var upgraded := Upgraded(Load(s.sessions.store, x.realm, x.cookie, now).value.session, m, now);
      after.(raises := s.raises + [Raise(x.session.sid, x.session.itsId, x.uid, now, x.proven.value)],
             reports := s.reports + [MakeReport(p, upgraded, x.uid, x.r, now)])
  }

  ghost function Apply(s: State, st: Step, cfg: Config, p: Policy): State
    requires Enabled(s, st, p)
  {
    var now := s.sessions.now;
    match st
    case Tick(to) => s.(sessions := s.sessions.(now := to), otp := s.otp.(now := to))
    case OnSession(o) => s.(sessions := Runs.Apply(s.sessions, o, cfg))
    case OnOtp(c) => s.(otp := Otps.Apply(s.otp, c))
    case Pass(realm, cookie, uid, r) =>
      var session := Load(s.sessions.store, realm, cookie, now).value.session;
      var after := s.(sessions := Runs.Apply(s.sessions, Runs.Read(realm, cookie), cfg));
      if IsRequired(p, r) && !IsFresh(session, EffectiveMaxAge(p, r), now) then after   // the MFA page
      else after.(reports := s.reports + [MakeReport(p, session, uid, r, now)])
    case Begin(q, realm, cookie, uid, r, via) =>
      var session := Load(s.sessions.store, realm, cookie, now).value.session;
      s.(sessions := Runs.Apply(s.sessions, Runs.Read(realm, cookie), cfg),
         otp := if via.ByOtp? then Otps.Apply(s.otp, Otps.Submit(via.v, via.id, OwnerOf(session.itsId, session.sid, uid), via.code)) else s.otp,
         mfa := s.mfa[q := Mfa(realm, cookie, session, uid, r, via, None)])
    case NoticeOtp(q) =>
      var v := s.mfa[q].via.v;
      s.(mfa := s.mfa[q := s.mfa[q].(proven := Some(Proven(OtpProof(v), s.otp.rows[s.otp.running[v].id].consumedAt.value)))])
    case MatchTotp(q, m) =>
      var its := s.mfa[q].session.itsId;
      s.(totp := s.totp[its := Totps.Apply(s.totp[its], Totps.Matched(q, m))])
    case AskTotp(q) =>
      var its := s.mfa[q].session.itsId;
      var m := s.totp[its].pending[q];
      s.(totp := s.totp[its := Totps.Apply(s.totp[its], Totps.Asks(q))],
         mfa := if Totps.NewStep(s.totp[its].last, m.step) then s.mfa[q := s.mfa[q].(proven := Some(Proven(TotpProof(m), m.checkedAt)))] else s.mfa)
    case RaiseLevel(q, hash) => Raised(s, q, hash, cfg, p)
    case GiveUp(q) => s.(mfa := s.mfa - {q})
  }

  // ---- the evidence ------------------------------------------------------------------------------------

  /**
   * The proof is a verified OTP of this member, session and interaction, or a TOTP step accepted for the
   * member from a code that this session and interaction submitted.
   */
  ghost predicate Evidence(s: State, itsId: string, sid: Sid, uid: string, x: Proven)
  {
    && x.at <= s.sessions.now
    && sid in s.sessions.store.rows && s.sessions.store.rows[sid].itsId == itsId
    && match x.proof
       case OtpProof(v) =>
         && Otps.IsVerified(s.otp, v) && s.otp.running[v].owner == OwnerOf(itsId, sid, uid)
         && s.otp.running[v].id in s.otp.rows && s.otp.rows[s.otp.running[v].id].consumedAt == Some(x.at)
       case TotpProof(m) =>
         itsId in s.totp && m in s.totp[itsId].accepted && m.asker == AskerOf(sid, uid) && m.checkedAt == x.at
  }

  ghost predicate MfaOk(s: State, x: Mfa)
  {
    && x.session.sid in s.sessions.store.rows && s.sessions.store.rows[x.session.sid].itsId == x.session.itsId
    && (x.via.ByOtp? ==> x.via.v in s.otp.running && s.otp.running[x.via.v].owner == OwnerOf(x.session.itsId, x.session.sid, x.uid))
    && (x.proven.Some? ==> Evidence(s, x.session.itsId, x.session.sid, x.uid, x.proven.value))
  }

  /** The match a request waits with is of the code it submitted itself, for its own session's member. */
  ghost predicate OwnMatch(s: State, q: nat)
    requires q in s.mfa
  {
    forall its | its in s.totp && q in s.totp[its].pending ::
      && its == s.mfa[q].session.itsId && s.mfa[q].via.ByTotp? && s.totp[its].pending[q].code == s.mfa[q].via.code
      && s.totp[its].pending[q].asker == AskerOf(s.mfa[q].session.sid, s.mfa[q].uid)
  }

  ghost predicate RaiseOk(s: State, u: Raise)
  {
    u.proven.at <= u.at <= s.sessions.now && Evidence(s, u.itsId, u.sid, u.uid, u.proven)
  }

  /** A row at AAL2 carries the time of an upgrade of that session, for that member. */
  ghost predicate RowBacked(s: State, sid: Sid)
    requires sid in s.sessions.store.rows
  {
    var row := s.sessions.store.rows[sid];
    row.aal == 2 ==> row.mfaAt.Some? && exists u :: u in s.raises && u.sid == sid && u.itsId == row.itsId && u.at == row.mfaAt.value
  }

  ghost predicate Honest(s: State, p: Policy, r: Report)
  {
    && (IsRequired(p, r.request) ==> r.acr == Aal2)
    && (r.acr == Aal2 ==> exists u :: u in s.raises && Covers(u, r, p))
  }

  /** The upgrade is of the report's session and member, and recent enough for it. */
  predicate Covers(u: Raise, r: Report, p: Policy)
  {
    && u.sid == r.sid && u.itsId == r.itsId
    && u.at <= r.at <= u.at + p.cap * 1000 && (IsRequired(p, r.request) ==> r.at <= u.at + EffectiveMaxAge(p, r.request) * 1000)
  }

  /** The protocols' own invariants, on one clock. */
  ghost predicate PartsOk(s: State, cfg: Config, p: Policy)
  {
    && Runs.Inv(s.sessions, cfg) && Otps.Inv(s.otp) && Otps.OneWinner(s.otp)
    && s.otp.now == s.sessions.now
    && (forall id | id in s.otp.rows :: s.otp.rows[id].consumedAt.Some? ==> s.otp.rows[id].consumedAt.value <= s.otp.now)
    && (forall its | its in s.totp :: Totps.Inv(s.totp[its], p.hmac))
    && (forall its | its in s.totp :: forall v | v in s.totp[its].pending :: s.totp[its].pending[v].checkedAt <= s.sessions.now)
  }

  ghost predicate Inv(s: State, cfg: Config, p: Policy)
  {
    && PartsOk(s, cfg, p)
    && (forall q | q in s.mfa :: MfaOk(s, s.mfa[q]) && OwnMatch(s, q))
    && (forall u | u in s.raises :: RaiseOk(s, u))
    && (forall sid | sid in s.sessions.store.rows :: RowBacked(s, sid))
    && (forall r | r in s.reports :: Honest(s, p, r))
  }

  // ---- what every step keeps ---------------------------------------------------------------------------

  /** The OTP protocol after a step keeps every verified code and when it was consumed. */
  lemma OtpKept(c: Otps.State, st: Otps.Step, v: nat)
    requires Otps.Enabled(c, st) && v in c.running
    ensures var c' := Otps.Apply(c, st);
      && v in c'.running && c'.running[v].owner == c.running[v].owner && c'.running[v].id == c.running[v].id
      && (Otps.IsVerified(c, v) ==> c'.running[v] == c.running[v])
    ensures forall id | id in c.rows && c.rows[id].consumedAt.Some? ::
              id in Otps.Apply(c, st).rows && Otps.Apply(c, st).rows[id].consumedAt == c.rows[id].consumedAt
  {
  }

  lemma TotpKept(t: Totps.State, e: Totps.Event, hmac: Totps.Hmac)
    requires Totps.Possible(t, e, hmac)
    ensures Totps.Apply(t, e).secret == t.secret
    ensures forall m | m in t.accepted :: m in Totps.Apply(t, e).accepted
    ensures Totps.Inv(t, hmac) ==> Totps.Inv(Totps.Apply(t, e), hmac)
  {
    if Totps.Inv(t, hmac) { Totps.StepKeeps(t, e, hmac); }
  }

  /** Verified codes, accepted steps and sessions are never lost. */
  ghost predicate Grows(s: State, s': State)
  {
    && s.sessions.now <= s'.sessions.now
    && (forall v | v in s.otp.running :: v in s'.otp.running && s'.otp.running[v].owner == s.otp.running[v].owner)
    && (forall v | v in s.otp.running && Otps.IsVerified(s.otp, v) :: s'.otp.running[v] == s.otp.running[v])
    && (forall id | id in s.otp.rows && s.otp.rows[id].consumedAt.Some? ::
          id in s'.otp.rows && s'.otp.rows[id].consumedAt == s.otp.rows[id].consumedAt)
    && (forall its | its in s.totp :: its in s'.totp && s'.totp[its].secret == s.totp[its].secret && forall m | m in s.totp[its].accepted :: m in s'.totp[its].accepted)
    && (forall sid | sid in s.sessions.store.rows ::
          sid in s'.sessions.store.rows && s'.sessions.store.rows[sid].itsId == s.sessions.store.rows[sid].itsId)
    && s.raises <= s'.raises
  }

  lemma EvidenceLater(s: State, s': State, itsId: string, sid: Sid, uid: string, x: Proven)
    requires Grows(s, s') && Evidence(s, itsId, sid, uid, x)
    ensures Evidence(s', itsId, sid, uid, x)
  {
  }

  lemma MfaLater(s: State, s': State, x: Mfa)
    requires Grows(s, s') && MfaOk(s, x)
    ensures MfaOk(s', x)
  {
    if x.proven.Some? { EvidenceLater(s, s', x.session.itsId, x.session.sid, x.uid, x.proven.value); }
  }

  lemma RaiseLater(s: State, s': State, u: Raise)
    requires Grows(s, s') && RaiseOk(s, u)
    ensures RaiseOk(s', u)
  {
    EvidenceLater(s, s', u.itsId, u.sid, u.uid, u.proven);
  }

  lemma HonestLater(s: State, s': State, p: Policy, r: Report)
    requires s.raises <= s'.raises && Honest(s, p, r)
    ensures Honest(s', p, r)
  {
  }

  lemma SessionRowsStay(s: Runs.State, o: Runs.Step, cfg: Config, sid: Sid)
    requires Runs.Enabled(s, o) && sid in s.store.rows
    ensures sid in Runs.Apply(s, o, cfg).store.rows && Runs.Apply(s, o, cfg).store.rows[sid].itsId == s.store.rows[sid].itsId
  {
  }

  // ---- each step as steps of the parts -----------------------------------------------------------------

  ghost function SessionStep(s: State, st: Step, p: Policy): Option<Runs.Step>
    requires Enabled(s, st, p)
  {
    match st
    case Tick(to) => Some(Runs.Wait(to))
    case OnSession(o) => Some(o)
    case Pass(realm, cookie, _, _) => Some(Runs.Read(realm, cookie))
    case Begin(_, realm, cookie, _, _, _) => Some(Runs.Read(realm, cookie))
    case RaiseLevel(q, hash) =>
      Some(Runs.StepUp(s.mfa[q].realm, s.mfa[q].session.sid, MethodOf(s.mfa[q], s.otp), s.mfa[q].cookie, hash))
    case _ => None
  }

  lemma SessionsOf(s: State, st: Step, cfg: Config, p: Policy)
    requires Enabled(s, st, p)
    ensures var o := SessionStep(s, st, p);
      && (o.Some? ==> Runs.Enabled(s.sessions, o.value))
      && Apply(s, st, cfg, p).sessions == if o.Some? then Runs.Apply(s.sessions, o.value, cfg) else s.sessions
  {
  }

  ghost function OtpStep(s: State, st: Step, p: Policy): Option<Otps.Step>
    requires Enabled(s, st, p)
  {
    match st
    case Tick(to) => Some(Otps.Wait(to))
    case OnOtp(c) => Some(c)
    case Begin(_, realm, cookie, uid, _, via) =>
      var session := Load(s.sessions.store, realm, cookie, s.sessions.now).value.session;
      if via.ByOtp? then Some(Otps.Submit(via.v, via.id, OwnerOf(session.itsId, session.sid, uid), via.code)) else None
    case _ => None
  }

  lemma OtpOf(s: State, st: Step, cfg: Config, p: Policy)
    requires Enabled(s, st, p) && s.otp.now == s.sessions.now
    ensures var c := OtpStep(s, st, p);
      && (c.Some? ==> Otps.Enabled(s.otp, c.value))
      && Apply(s, st, cfg, p).otp == if c.Some? then Otps.Apply(s.otp, c.value) else s.otp
  {
  }

  ghost function TotpEvent(s: State, st: Step, p: Policy): Option<(string, Totps.Event)>
    requires Enabled(s, st, p)
  {
    match st
    case MatchTotp(q, m) => Some((s.mfa[q].session.itsId, Totps.Matched(q, m)))
    case AskTotp(q) => Some((s.mfa[q].session.itsId, Totps.Asks(q)))
    case _ => None
  }

  lemma TotpOf(s: State, st: Step, cfg: Config, p: Policy)
    requires Enabled(s, st, p)
    ensures var e := TotpEvent(s, st, p);
      && (e.Some? ==> e.value.0 in s.totp && Totps.Possible(s.totp[e.value.0], e.value.1, p.hmac))
      && Apply(s, st, cfg, p).totp == if e.Some? then s.totp[e.value.0 := Totps.Apply(s.totp[e.value.0], e.value.1)] else s.totp
  {
  }

  lemma OtpGrows(c: Otps.State, st: Otps.Step)
    requires Otps.Enabled(c, st)
    ensures var c' := Otps.Apply(c, st);
      && (forall v | v in c.running :: v in c'.running && c'.running[v].owner == c.running[v].owner)
      && (forall v | v in c.running && Otps.IsVerified(c, v) :: c'.running[v] == c.running[v])
      && (forall id | id in c.rows && c.rows[id].consumedAt.Some? :: id in c'.rows && c'.rows[id].consumedAt == c.rows[id].consumedAt)
  {
    forall v | v in c.running
      ensures var c' := Otps.Apply(c, st);
        v in c'.running && c'.running[v].owner == c.running[v].owner && (Otps.IsVerified(c, v) ==> c'.running[v] == c.running[v])
    {
      OtpKept(c, st, v);
    }
  }

  lemma StepGrows(s: State, st: Step, cfg: Config, p: Policy)
    requires Enabled(s, st, p) && s.otp.now == s.sessions.now
    ensures Grows(s, Apply(s, st, cfg, p))
  {
    SessionsOf(s, st, cfg, p);
    OtpOf(s, st, cfg, p);
    TotpOf(s, st, cfg, p);
    if OtpStep(s, st, p).Some? { OtpGrows(s.otp, OtpStep(s, st, p).value); }
    var e := TotpEvent(s, st, p);
    if e.Some? { TotpKept(s.totp[e.value.0], e.value.1, p.hmac); }
    if SessionStep(s, st, p).Some? {
      forall sid | sid in s.sessions.store.rows
        ensures var rows := Runs.Apply(s.sessions, SessionStep(s, st, p).value, cfg).store.rows;
          sid in rows && rows[sid].itsId == s.sessions.store.rows[sid].itsId
      {
        SessionRowsStay(s.sessions, SessionStep(s, st, p).value, cfg, sid);
      }
    }
  }

  lemma OtpConsumed(c: Otps.State, st: Otps.Step)
    requires Otps.Enabled(c, st)
    requires forall id | id in c.rows :: c.rows[id].consumedAt.Some? ==> c.rows[id].consumedAt.value <= c.now
    ensures var c' := Otps.Apply(c, st);
      forall id | id in c'.rows :: c'.rows[id].consumedAt.Some? ==> c'.rows[id].consumedAt.value <= c'.now
  {
  }

  ghost predicate FactorOk(t: Totps.State, now: int, hmac: Totps.Hmac)
  {
    Totps.Inv(t, hmac) && forall v | v in t.pending :: t.pending[v].checkedAt <= now
  }

  lemma FactorKept(t: Totps.State, e: Totps.Event, now: int, hmac: Totps.Hmac)
    requires FactorOk(t, now, hmac) && Totps.Possible(t, e, hmac) && (e.Matched? ==> e.m.checkedAt <= now)
    ensures FactorOk(Totps.Apply(t, e), now, hmac)
  {
    TotpKept(t, e, hmac);
  }

  lemma CheckedNow(s: State, st: Step, p: Policy)
    requires Enabled(s, st, p)
    ensures var e := TotpEvent(s, st, p); e.Some? && e.value.1.Matched? ==> e.value.1.m.checkedAt == s.sessions.now
  {
  }

  lemma TotpPending(s: State, st: Step, cfg: Config, p: Policy)
    requires PartsOk(s, cfg, p) && Enabled(s, st, p)
    ensures var s' := Apply(s, st, cfg, p);
      && (forall its | its in s'.totp :: Totps.Inv(s'.totp[its], p.hmac))
      && (forall its | its in s'.totp :: forall v | v in s'.totp[its].pending :: s'.totp[its].pending[v].checkedAt <= s'.sessions.now)
  {
    var s' := Apply(s, st, cfg, p);
    var e := TotpEvent(s, st, p);
    SessionsOf(s, st, cfg, p);
    TotpOf(s, st, cfg, p);
    CheckedNow(s, st, p);
    forall its | its in s'.totp ensures FactorOk(s'.totp[its], s'.sessions.now, p.hmac) {
      assert FactorOk(s.totp[its], s.sessions.now, p.hmac);
      if e.Some? && e.value.0 == its { FactorKept(s.totp[its], e.value.1, s.sessions.now, p.hmac); }
    }
  }

  lemma PartsKept(s: State, st: Step, cfg: Config, p: Policy)
    requires PartsOk(s, cfg, p) && cfg.Valid() && Enabled(s, st, p)
    ensures PartsOk(Apply(s, st, cfg, p), cfg, p)
  {
    SessionsOf(s, st, cfg, p);
    OtpOf(s, st, cfg, p);
    TotpPending(s, st, cfg, p);
    if SessionStep(s, st, p).Some? { Runs.StepKeeps(s.sessions, SessionStep(s, st, p).value, cfg); }
    if OtpStep(s, st, p).Some? {
      Otps.StepKeeps(s.otp, OtpStep(s, st, p).value);
      Otps.OneWinnerKept(s.otp, OtpStep(s, st, p).value);
      OtpConsumed(s.otp, OtpStep(s, st, p).value);
    }
  }

  // ---- requests, upgrades, rows and reports ------------------------------------------------------------

  lemma BegunOk(s: State, st: Step, cfg: Config, p: Policy)
    requires PartsOk(s, cfg, p) && st.Begin? && Enabled(s, st, p)
    ensures MfaOk(Apply(s, st, cfg, p), Apply(s, st, cfg, p).mfa[st.q])
  {
    Runs.LoadedRow(s.sessions, cfg, st.realm, st.cookie);
    Runs.AfterLoadKeeps(s.sessions, cfg, st.realm, st.cookie);
  }

  lemma NoticedOk(s: State, st: Step, cfg: Config, p: Policy)
    requires PartsOk(s, cfg, p) && st.NoticeOtp? && Enabled(s, st, p) && MfaOk(s, s.mfa[st.q])
    ensures MfaOk(Apply(s, st, cfg, p), Apply(s, st, cfg, p).mfa[st.q])
  {
  }

  lemma AskedOk(s: State, st: Step, cfg: Config, p: Policy)
    requires PartsOk(s, cfg, p) && st.AskTotp? && Enabled(s, st, p) && MfaOk(s, s.mfa[st.q]) && OwnMatch(s, st.q)
    ensures MfaOk(Apply(s, st, cfg, p), Apply(s, st, cfg, p).mfa[st.q])
  {
    StepGrows(s, st, cfg, p);
    MfaLater(s, Apply(s, st, cfg, p), s.mfa[st.q]);
  }

  /** A request that the step leaves alone. */
  lemma MfaMoves(s: State, st: Step, cfg: Config, p: Policy, q: nat)
    requires Enabled(s, st, p) && q in Apply(s, st, cfg, p).mfa
    ensures || ((st.Begin? || st.NoticeOtp? || st.AskTotp?) && st.q == q && (!st.Begin? ==> q in s.mfa))
            || (q in s.mfa && Apply(s, st, cfg, p).mfa[q] == s.mfa[q])
  {
  }

  lemma OwnMatchKept(s: State, st: Step, cfg: Config, p: Policy, q: nat)
    requires Enabled(s, st, p) && q in Apply(s, st, cfg, p).mfa && (q in s.mfa ==> OwnMatch(s, q))
    ensures OwnMatch(Apply(s, st, cfg, p), q)
  {
    MfaMoves(s, st, cfg, p, q);
    TotpOf(s, st, cfg, p);
  }

  lemma MfasKept(s: State, st: Step, cfg: Config, p: Policy)
    requires PartsOk(s, cfg, p) && (forall q | q in s.mfa :: MfaOk(s, s.mfa[q]) && OwnMatch(s, q)) && Enabled(s, st, p)
    ensures var s' := Apply(s, st, cfg, p); forall q | q in s'.mfa :: MfaOk(s', s'.mfa[q]) && OwnMatch(s', q)
  {
    var s' := Apply(s, st, cfg, p);
    StepGrows(s, st, cfg, p);
    forall q | q in s'.mfa ensures MfaOk(s', s'.mfa[q]) && OwnMatch(s', q) {
      MfaMoves(s, st, cfg, p, q);
      OwnMatchKept(s, st, cfg, p, q);
      if q in s.mfa && s'.mfa[q] == s.mfa[q] {
        MfaLater(s, s', s.mfa[q]);
      } else if st.Begin? {
        BegunOk(s, st, cfg, p);
      } else if st.NoticeOtp? {
        NoticedOk(s, st, cfg, p);
      } else {
        AskedOk(s, st, cfg, p);
      }
    }
  }

  lemma NewRaise(s: State, st: Step, cfg: Config, p: Policy, u: Raise)
    requires Enabled(s, st, p) && u in Apply(s, st, cfg, p).raises && u !in s.raises
    ensures st.RaiseLevel? && Apply(s, st, cfg, p).sessions.now == s.sessions.now
    ensures var x := s.mfa[st.q]; u == Raise(x.session.sid, x.session.itsId, x.uid, s.sessions.now, x.proven.value)
  {
  }

  lemma RaisesKept(s: State, st: Step, cfg: Config, p: Policy)
    requires Inv(s, cfg, p) && Enabled(s, st, p)
    ensures forall u | u in Apply(s, st, cfg, p).raises :: RaiseOk(Apply(s, st, cfg, p), u)
  {
    var s' := Apply(s, st, cfg, p);
    StepGrows(s, st, cfg, p);
    forall u | u in s'.raises ensures RaiseOk(s', u) {
      if u in s.raises {
        RaiseLater(s, s', u);
      } else {
        NewRaise(s, st, cfg, p, u);
        assert MfaOk(s, s.mfa[st.q]);
        EvidenceLater(s, s', u.itsId, u.sid, u.uid, u.proven);
      }
    }
  }

  /** Only an upgrade brings a row to AAL2 or changes the time of its second factor. */
  lemma OtherKeepsRows(s: Runs.State, o: Runs.Step, cfg: Config, sid: Sid)
    requires Runs.Inv(s, cfg) && cfg.Valid() && Runs.Enabled(s, o) && sid in Runs.Apply(s, o, cfg).store.rows
    requires o.StepUp? && UpgradeAllowed(s.store, o.realm, o.sid, o.cookie, s.now) ==> o.sid != sid
    ensures var row := Runs.Apply(s, o, cfg).store.rows[sid];
            row.aal == 2 ==> sid in s.store.rows && s.store.rows[sid].aal == 2 && s.store.rows[sid].mfaAt == row.mfaAt
                             && s.store.rows[sid].itsId == row.itsId
  {
    if o.Read? || o.Slide? || o.End? || o.StepUp? { Runs.AfterLoadKeeps(s, cfg, o.realm, o.cookie); }
  }

  lemma RowLater(s: State, s': State, sid: Sid)
    requires s.raises <= s'.raises && sid in s'.sessions.store.rows
    requires sid in s.sessions.store.rows ==> RowBacked(s, sid)
    requires var row := s'.sessions.store.rows[sid];
             row.aal == 2 ==> sid in s.sessions.store.rows && s.sessions.store.rows[sid].aal == 2
                              && s.sessions.store.rows[sid].mfaAt == row.mfaAt && s.sessions.store.rows[sid].itsId == row.itsId
    ensures RowBacked(s', sid)
  {
  }

  lemma RaisedRow(s: State, st: Step, cfg: Config, p: Policy)
    requires PartsOk(s, cfg, p) && st.RaiseLevel? && Enabled(s, st, p) && MfaOk(s, s.mfa[st.q])
    requires var x := s.mfa[st.q]; UpgradeAllowed(s.sessions.store, x.realm, x.session.sid, x.cookie, s.sessions.now)
    ensures var s', sid := Apply(s, st, cfg, p), s.mfa[st.q].session.sid;
      sid in s'.sessions.store.rows && RowBacked(s', sid)
  {
    var x, s' := s.mfa[st.q], Apply(s, st, cfg, p);
    Runs.AfterLoadKeeps(s.sessions, cfg, x.realm, x.cookie);
    assert Raise(x.session.sid, x.session.itsId, x.uid, s.sessions.now, x.proven.value) in s'.raises;
  }

  lemma RowsKept(s: State, st: Step, cfg: Config, p: Policy)
    requires Inv(s, cfg, p) && cfg.Valid() && Enabled(s, st, p)
    ensures forall sid | sid in Apply(s, st, cfg, p).sessions.store.rows :: RowBacked(Apply(s, st, cfg, p), sid)
  {
    var s' := Apply(s, st, cfg, p);
    SessionsOf(s, st, cfg, p);
    StepGrows(s, st, cfg, p);
    var o := SessionStep(s, st, p);
    forall sid | sid in s'.sessions.store.rows ensures RowBacked(s', sid) {
      if o.None? {
        RowLater(s, s', sid);
      } else if o.value.StepUp? && o.value.sid == sid
                && UpgradeAllowed(s.sessions.store, o.value.realm, o.value.sid, o.value.cookie, s.sessions.now) {
        RaisedRow(s, st, cfg, p);
      } else {
        OtherKeepsRows(s.sessions, o.value, cfg, sid);
        RowLater(s, s', sid);
      }
    }
  }

  lemma PassIsHonest(s: State, st: Step, cfg: Config, p: Policy)
    requires Inv(s, cfg, p) && st.Pass? && Enabled(s, st, p)
    requires var session := Load(s.sessions.store, st.realm, st.cookie, s.sessions.now).value.session;
             !IsRequired(p, st.r) || IsFresh(session, EffectiveMaxAge(p, st.r), s.sessions.now)
    ensures var session := Load(s.sessions.store, st.realm, st.cookie, s.sessions.now).value.session;
            Honest(s, p, MakeReport(p, session, st.uid, st.r, s.sessions.now))
  {
    var session := Load(s.sessions.store, st.realm, st.cookie, s.sessions.now).value.session;
    var report := MakeReport(p, session, st.uid, st.r, s.sessions.now);
    Runs.LoadedRow(s.sessions, cfg, st.realm, st.cookie);
    if report.acr == Aal2 {
      assert RowBacked(s, session.sid);
      var u :| u in s.raises && u.sid == session.sid && u.itsId == session.itsId && u.at == session.mfaAt.value;
      assert RaiseOk(s, u);
      assert Covers(u, report, p);
    }
  }

  lemma RaiseIsHonest(s: State, st: Step, cfg: Config, p: Policy)
    requires Inv(s, cfg, p) && st.RaiseLevel? && Enabled(s, st, p)
    requires var x := s.mfa[st.q]; UpgradeAllowed(s.sessions.store, x.realm, x.session.sid, x.cookie, s.sessions.now)
    ensures var x := s.mfa[st.q];
            var upgraded := Upgraded(Load(s.sessions.store, x.realm, x.cookie, s.sessions.now).value.session, MethodOf(x, s.otp), s.sessions.now);
            Honest(Apply(s, st, cfg, p), p, MakeReport(p, upgraded, x.uid, x.r, s.sessions.now))
  {
    var x, now := s.mfa[st.q], s.sessions.now;
    Runs.LoadedRow(s.sessions, cfg, x.realm, x.cookie);
    assert MfaOk(s, x);
    var upgraded := Upgraded(Load(s.sessions.store, x.realm, x.cookie, now).value.session, MethodOf(x, s.otp), now);
    var u := Raise(x.session.sid, x.session.itsId, x.uid, now, x.proven.value);
    assert u in Apply(s, st, cfg, p).raises && Covers(u, MakeReport(p, upgraded, x.uid, x.r, now), p);
  }

  /** The two steps that report, and what. */
  lemma ReportOf(s: State, st: Step, cfg: Config, p: Policy, r: Report)
    requires Enabled(s, st, p) && r in Apply(s, st, cfg, p).reports && r !in s.reports
    ensures st.Pass? || st.RaiseLevel?
    ensures st.Pass? ==>
      var session := Load(s.sessions.store, st.realm, st.cookie, s.sessions.now).value.session;
      && (!IsRequired(p, st.r) || IsFresh(session, EffectiveMaxAge(p, st.r), s.sessions.now))
      && r == MakeReport(p, session, st.uid, st.r, s.sessions.now) && Apply(s, st, cfg, p).raises == s.raises
    ensures st.RaiseLevel? ==>
      var x := s.mfa[st.q];
      && UpgradeAllowed(s.sessions.store, x.realm, x.session.sid, x.cookie, s.sessions.now)
      && r == MakeReport(p, Upgraded(Load(s.sessions.store, x.realm, x.cookie, s.sessions.now).value.session, MethodOf(x, s.otp), s.sessions.now),
                         x.uid, x.r, s.sessions.now)
  {
  }

  lemma NewReport(s: State, st: Step, cfg: Config, p: Policy, r: Report)
    requires Inv(s, cfg, p) && Enabled(s, st, p) && r in Apply(s, st, cfg, p).reports && r !in s.reports
    ensures Honest(Apply(s, st, cfg, p), p, r)
  {
    ReportOf(s, st, cfg, p, r);
    if st.Pass? {
      PassIsHonest(s, st, cfg, p);
      HonestLater(s, Apply(s, st, cfg, p), p, r);
    } else {
      RaiseIsHonest(s, st, cfg, p);
    }
  }

  lemma ReportsKept(s: State, st: Step, cfg: Config, p: Policy)
    requires Inv(s, cfg, p) && Enabled(s, st, p)
    ensures forall r | r in Apply(s, st, cfg, p).reports :: Honest(Apply(s, st, cfg, p), p, r)
  {
    var s' := Apply(s, st, cfg, p);
    StepGrows(s, st, cfg, p);
    forall r | r in s'.reports ensures Honest(s', p, r) {
      if r in s.reports { HonestLater(s, s', p, r); } else { NewReport(s, st, cfg, p, r); }
    }
  }

  lemma StepKeeps(s: State, st: Step, cfg: Config, p: Policy)
    requires Inv(s, cfg, p) && cfg.Valid() && Enabled(s, st, p)
    ensures Inv(Apply(s, st, cfg, p), cfg, p)
  {
    PartsKept(s, st, cfg, p);
    MfasKept(s, st, cfg, p);
    RaisesKept(s, st, cfg, p);
    RowsKept(s, st, cfg, p);
    ReportsKept(s, st, cfg, p);
  }

  // ---- whole runs --------------------------------------------------------------------------------------

  /** Nobody signed in yet; members may have registered TOTP factors. */
  ghost predicate Initial(s: State)
  {
    && s.sessions.store == Store(map[], map[]) && s.otp == Otps.State(s.sessions.now, map[], map[], map[], map[])
    && (forall its | its in s.totp :: s.totp[its].pending == map[] && s.totp[its].accepted == [])
    && s.mfa == map[] && s.raises == [] && s.reports == []
  }

  lemma InitialOk(s: State, cfg: Config, p: Policy)
    requires Initial(s)
    ensures Inv(s, cfg, p)
  {
  }

  ghost predicate IsRun(tr: seq<State>, steps: seq<Step>, cfg: Config, p: Policy)
  {
    && cfg.Valid()
    && |tr| == |steps| + 1 && Initial(tr[0])
    && forall i | 0 <= i < |steps| :: Enabled(tr[i], steps[i], p) && tr[i + 1] == Apply(tr[i], steps[i], cfg, p)
  }

  lemma {:induction false} Reachable(tr: seq<State>, steps: seq<Step>, cfg: Config, p: Policy, i: nat)
    requires IsRun(tr, steps, cfg, p) && i < |tr|
    ensures Inv(tr[i], cfg, p)
  {
    if i == 0 {
      InitialOk(tr[0], cfg, p);
    } else {
      Reachable(tr, steps, cfg, p, i - 1);
      assert tr[i - 1 + 1] == Apply(tr[i - 1], steps[i - 1], cfg, p);
      StepKeeps(tr[i - 1], steps[i - 1], cfg, p);
    }
  }

  /**
   * Over every run: a result whose request required AAL2 reports AAL2. Every reported AAL2 follows an
   * upgrade of that very session and member within MFA_MAX_AGE_SECONDS, and within the shorter age the
   * request asked for when AAL2 was required; and the upgrade rests on a one-time code or TOTP code that
   * was verified no later for that member, session and interaction.
   */
  lemma AssuranceSound(tr: seq<State>, steps: seq<Step>, cfg: Config, p: Policy, i: nat, r: Report)
    requires IsRun(tr, steps, cfg, p) && i < |tr| && r in tr[i].reports
    ensures IsRequired(p, r.request) ==> r.acr == Aal2
    ensures r.acr == Aal2 ==> exists u :: u in tr[i].raises && Supports(tr[i], u, r, p)
  {
    Reachable(tr, steps, cfg, p, i);
    HonestIsSupported(tr[i], cfg, p, r);
  }

  /**
   * Over every run, a result reports AAL2 whenever the policy asks everybody for it, acr_values names it,
   * the client's default names it and there are no acr_values, or the member's flag is honoured and set.
   */
  lemma RequiredIsReported(tr: seq<State>, steps: seq<Step>, cfg: Config, p: Policy, i: nat, r: Report)
    requires IsRun(tr, steps, cfg, p) && i < |tr| && r in tr[i].reports
    ensures || p.requiredForAll || Aal2 in r.request.acrs || (r.request.acrs == [] && Aal2 in r.request.defaults)
            || (p.honorFlag && r.request.otpRequired)
            ==> r.acr == Aal2
  {
    AssuranceSound(tr, steps, cfg, p, i, r);
  }

  /**
   * A request that reaches afterPrimary with a session is answered at once if and only if AAL2 is not
   * required, or the session was upgraded no longer ago than the age asked for and the cap; the answer
   * then is AAL2 exactly when the upgrade is no older than the cap. Otherwise nothing is reported.
   */
  lemma ReportedAtOnce(s: State, st: Step, cfg: Config, p: Policy)
    requires st.Pass? && Enabled(s, st, p)
    ensures var session, now, r := Load(s.sessions.store, st.realm, st.cookie, s.sessions.now).value.session, s.sessions.now, st.r;
            var required := p.requiredForAll || Aal2 in r.acrs || (r.acrs == [] && Aal2 in r.defaults) || (p.honorFlag && r.otpRequired);
            var age := if r.maxAge.Some? && 0 < r.maxAge.value < p.cap then r.maxAge.value else p.cap;
            var upgraded := session.aal >= 2 && session.mfaAt.Some?;
            Apply(s, st, cfg, p).reports ==
              if required && !(upgraded && now <= session.mfaAt.value + 1000 * age) then s.reports
              else s.reports + [Report(session.sid, session.itsId, session.realm, now,
                                       if upgraded && now <= session.mfaAt.value + 1000 * p.cap then Aal2 else Aal1, st.uid, r)]
  {
    assert EffectiveMaxAge(p, st.r) == if st.r.maxAge.Some? && 0 < st.r.maxAge.value < p.cap then st.r.maxAge.value else p.cap;
  }

  /**
   * The end of verifyMfa: when the cookie still loads the session that was verified, the upgrade is
   * recorded and AAL2 reported; otherwise nothing is.
   */
  lemma RaiseOutcome(s: State, st: Step, cfg: Config, p: Policy)
    requires st.RaiseLevel? && Enabled(s, st, p)
    ensures var x, now, s' := s.mfa[st.q], s.sessions.now, Apply(s, st, cfg, p);
            var l := Load(s.sessions.store, x.realm, x.cookie, now);
            if l.Some? && l.value.session.sid == x.session.sid then
              && s'.raises == s.raises + [Raise(x.session.sid, x.session.itsId, x.uid, now, x.proven.value)]
              && s'.reports == s.reports + [Report(l.value.session.sid, l.value.session.itsId, l.value.session.realm, now, Aal2, x.uid, x.r)]
            else s'.raises == s.raises && s'.reports == s.reports
  {
  }

  /** By what the second factor was verified. */
  lemma MethodIs(x: Mfa, c: Otps.State)
    requires x.via.ByOtp? ==> Otps.IsVerified(c, x.via.v)
    ensures MethodOf(x, c) == if x.via.ByTotp? then GlobalSession.Totp
                              else if c.running[x.via.v].phase.verdict.channel == Otps.Email then EmailOtp else SmsOtp
  {
  }

  /** The upgrade records it in the row. */
  lemma RaiseMethod(s: State, st: Step, cfg: Config, p: Policy)
    requires PartsOk(s, cfg, p) && st.RaiseLevel? && Enabled(s, st, p) && MfaOk(s, s.mfa[st.q])
    requires var x := s.mfa[st.q]; UpgradeAllowed(s.sessions.store, x.realm, x.session.sid, x.cookie, s.sessions.now)
    ensures var x, rows := s.mfa[st.q], Apply(s, st, cfg, p).sessions.store.rows;
      x.session.sid in rows && rows[x.session.sid].mfaMethod == Some(MethodOf(x, s.otp))
  {
    var x := s.mfa[st.q];
    SessionsOf(s, st, cfg, p);
    Runs.AfterLoadKeeps(s.sessions, cfg, x.realm, x.cookie);
    UpgradedRow(s.sessions, cfg, x.realm, x.session.sid, MethodOf(x, s.otp), x.cookie, st.hash);
  }

  lemma UpgradedRow(s: Runs.State, cfg: Config, realm: Realm, sid: Sid, m: Method, cookie: Option<Hash>, hash: Hash)
    requires Runs.Inv(s, cfg) && UpgradeAllowed(s.store, realm, sid, cookie, s.now)
    requires AfterLoad(s.store, realm, cookie, s.now).rows == s.store.rows && sid in s.store.rows
    ensures var rows := Upgrade(s.store, realm, sid, m, cookie, hash, s.now).rows; sid in rows && rows[sid].mfaMethod == Some(m)
  {
  }

  /** The upgrade is recent enough for the report, and rests on evidence for the report's session and member. */
  ghost predicate Supports(s: State, u: Raise, r: Report, p: Policy)
  {
    Covers(u, r, p) && u.proven.at <= u.at && Evidence(s, r.itsId, r.sid, u.uid, u.proven)
  }

  lemma HonestIsSupported(s: State, cfg: Config, p: Policy, r: Report)
    requires Inv(s, cfg, p) && r in s.reports
    ensures IsRequired(p, r.request) ==> r.acr == Aal2
    ensures r.acr == Aal2 ==> exists u :: u in s.raises && Supports(s, u, r, p)
  {
    assert Honest(s, p, r);
    if r.acr == Aal2 {
      var u :| u in s.raises && Covers(u, r, p);
      assert RaiseOk(s, u);
    }
  }

  lemma ReportsGrow(s: State, st: Step, cfg: Config, p: Policy)
    requires Enabled(s, st, p)
    ensures s.reports <= Apply(s, st, cfg, p).reports
  {
  }

  /** Every request to verifyMfa carried on at the clock reading of its verification. */
  ghost predicate OneReading(s: State)
  {
    forall u | u in s.raises :: u.proven.at == u.at
  }

  /** With one clock reading per request, the age is that of the verification itself. */
  lemma VerifiedWithinAge(tr: seq<State>, steps: seq<Step>, cfg: Config, p: Policy, i: nat, r: Report) returns (uid: string, x: Proven)
    requires IsRun(tr, steps, cfg, p) && i < |tr| && r in tr[i].reports && r.acr == Aal2 && OneReading(tr[i])
    ensures Evidence(tr[i], r.itsId, r.sid, uid, x)
    ensures x.at <= r.at <= x.at + p.cap * 1000 && (IsRequired(p, r.request) ==> r.at <= x.at + EffectiveMaxAge(p, r.request) * 1000)
  {
    AssuranceSound(tr, steps, cfg, p, i, r);
    var u :| u in tr[i].raises && Supports(tr[i], u, r, p);
    uid, x := u.uid, u.proven;
  }

  lemma OtpMoves(tr: seq<State>, steps: seq<Step>, cfg: Config, p: Policy, i: nat) returns (c: Option<Otps.Step>)
    requires IsRun(tr, steps, cfg, p) && i < |steps|
    ensures c.Some? ==> Otps.Enabled(tr[i].otp, c.value)
    ensures tr[i + 1].otp == if c.Some? then Otps.Apply(tr[i].otp, c.value) else tr[i].otp
  {
    Reachable(tr, steps, cfg, p, i);
    OtpOf(tr[i], steps[i], cfg, p);
    c := OtpStep(tr[i], steps[i], p);
  }

  /** The one-time codes of a run, by themselves, are a run of the OTP protocol. */
  lemma {:induction false} OtpRun(tr: seq<State>, steps: seq<Step>, cfg: Config, p: Policy, i: nat)
    returns (otps: seq<Otps.State>, moves: seq<Otps.Step>)
    requires IsRun(tr, steps, cfg, p) && i < |tr|
    ensures Otps.IsRun(otps, moves) && otps[|moves|] == tr[i].otp
  {
    if i == 0 {
      otps, moves := [tr[0].otp], [];
    } else {
      otps, moves := OtpRun(tr, steps, cfg, p, i - 1);
      var c := OtpMoves(tr, steps, cfg, p, i - 1);
      if c.Some? { otps, moves := Extended(otps, moves, c.value, tr[i].otp); }
    }
  }

  lemma Extended(otps: seq<Otps.State>, moves: seq<Otps.Step>, c: Otps.Step, last: Otps.State)
    returns (otps': seq<Otps.State>, moves': seq<Otps.Step>)
    requires Otps.IsRun(otps, moves) && Otps.Enabled(otps[|moves|], c) && last == Otps.Apply(otps[|moves|], c)
    ensures Otps.IsRun(otps', moves') && otps'[|moves'|] == last
  {
    otps', moves' := otps + [last], moves + [c];
    forall n | 0 <= n < |moves'|
      ensures Otps.Enabled(otps'[n], moves'[n]) && otps'[n + 1] == Otps.Apply(otps'[n], moves'[n])
    {
      if n < |moves| { assert otps'[n] == otps[n] && otps'[n + 1] == otps[n + 1] && moves'[n] == moves[n]; }
    }
  }

  lemma ClockStays(s: State, st: Step, cfg: Config, p: Policy)
    requires Enabled(s, st, p) && !st.Tick?
    ensures Apply(s, st, cfg, p).sessions.now == s.sessions.now
  {
    SessionsOf(s, st, cfg, p);
  }

  lemma StepOf(tr: seq<State>, steps: seq<Step>, cfg: Config, p: Policy, i: nat)
    requires IsRun(tr, steps, cfg, p) && i < |steps|
    ensures Enabled(tr[i], steps[i], p) && tr[i + 1] == Apply(tr[i], steps[i], cfg, p)
  {
  }

  /** A request comes from an earlier step: it loaded this very session and submitted this very code. */
  lemma {:induction false} MfaBegan(tr: seq<State>, steps: seq<Step>, cfg: Config, p: Policy, i: nat, q: nat) returns (n: nat)
    requires IsRun(tr, steps, cfg, p) && i < |tr| && q in tr[i].mfa
    ensures n < i && BegunAt(tr[n], steps[n], q, tr[i].mfa[q])
    decreases i
  {
    StepOf(tr, steps, cfg, p, i - 1);
    Began(tr[i - 1], steps[i - 1], cfg, p, q);
    if BegunAt(tr[i - 1], steps[i - 1], q, tr[i].mfa[q]) {
      n := i - 1;
    } else {
      n := MfaBegan(tr, steps, cfg, p, i - 1, q);
    }
  }

  ghost predicate BegunAt(s: State, st: Step, q: nat, x: Mfa)
  {
    && st == Begin(q, x.realm, x.cookie, x.uid, x.r, x.via)
    && Load(s.sessions.store, x.realm, x.cookie, s.sessions.now).Some?
    && Load(s.sessions.store, x.realm, x.cookie, s.sessions.now).value.session == x.session
  }

  lemma Began(s: State, st: Step, cfg: Config, p: Policy, q: nat)
    requires Enabled(s, st, p) && q in Apply(s, st, cfg, p).mfa
    ensures var x := Apply(s, st, cfg, p).mfa[q];
      BegunAt(s, st, q, x) || (q in s.mfa && s.mfa[q].(proven := None) == x.(proven := None))
  {
  }

  /** The step at which `verifyTotp` found the time step for a request of this session and interaction. */
  ghost predicate MatchedAt(s: State, st: Step, itsId: string, m: Totps.Match)
  {
    && st.MatchTotp? && st.m == m && st.q in s.mfa && s.mfa[st.q].session.itsId == itsId && s.mfa[st.q].via == ByTotp(m.code)
    && m.asker == AskerOf(s.mfa[st.q].session.sid, s.mfa[st.q].uid) && m.checkedAt == s.sessions.now
  }

  ghost predicate Seen(t: Totps.State, m: Totps.Match)
  {
    m in t.accepted || exists v :: v in t.pending && t.pending[v] == m
  }

  lemma SeenBefore(s: State, st: Step, cfg: Config, p: Policy, its: string, m: Totps.Match)
    requires Enabled(s, st, p) && its in s.totp && its in Apply(s, st, cfg, p).totp && Seen(Apply(s, st, cfg, p).totp[its], m)
    ensures Seen(s.totp[its], m) || MatchedAt(s, st, its, m)
  {
    TotpOf(s, st, cfg, p);
    if st.AskTotp? && s.mfa[st.q].session.itsId == its { assert Seen(s.totp[its], s.totp[its].pending[st.q]); }
  }

  lemma {:induction false} TotpMatched(tr: seq<State>, steps: seq<Step>, cfg: Config, p: Policy, i: nat, its: string, m: Totps.Match)
    returns (n: nat)
    requires IsRun(tr, steps, cfg, p) && i < |tr| && its in tr[i].totp && Seen(tr[i].totp[its], m)
    ensures n < i && MatchedAt(tr[n], steps[n], its, m)
  {
    StepOf(tr, steps, cfg, p, i - 1);
    TotpOf(tr[i - 1], steps[i - 1], cfg, p);
    SeenBefore(tr[i - 1], steps[i - 1], cfg, p, its, m);
    if Seen(tr[i - 1].totp[its], m) {
      n := TotpMatched(tr, steps, cfg, p, i - 1, its, m);
    } else {
      n := i - 1;
    }
  }

  /** The TOTP factor of a member, by itself, goes through a run of the TOTP protocol. */
  lemma {:induction false} TotpRun(tr: seq<State>, steps: seq<Step>, cfg: Config, p: Policy, i: nat, its: string)
    returns (ts: seq<Totps.State>, es: seq<Totps.Event>)
    requires IsRun(tr, steps, cfg, p) && i < |tr| && its in tr[i].totp
    ensures Totps.IsRun(ts, es, p.hmac) && ts[|es|] == tr[i].totp[its]
  {
    if i == 0 {
      ts, es := [tr[0].totp[its]], [];
    } else {
      StepOf(tr, steps, cfg, p, i - 1);
      TotpOf(tr[i - 1], steps[i - 1], cfg, p);
      ts, es := TotpRun(tr, steps, cfg, p, i - 1, its);
      var e := TotpEvent(tr[i - 1], steps[i - 1], p);
      if e.Some? && e.value.0 == its { ts, es := TotpExtended(ts, es, p.hmac, e.value.1); }
    }
  }

  lemma TotpExtended(ts: seq<Totps.State>, es: seq<Totps.Event>, hmac: Totps.Hmac, e: Totps.Event)
    returns (ts': seq<Totps.State>, es': seq<Totps.Event>)
    requires Totps.IsRun(ts, es, hmac) && Totps.Possible(ts[|es|], e, hmac)
    ensures Totps.IsRun(ts', es', hmac) && ts'[|es'|] == Totps.Apply(ts[|es|], e)
  {
    ts', es' := ts + [Totps.Apply(ts[|es|], e)], es + [e];
    forall n | 0 <= n < |es'|
      ensures Totps.Possible(ts'[n], es'[n], hmac) && ts'[n + 1] == Totps.Apply(ts'[n], es'[n])
    {
      if n < |es| { assert ts'[n] == ts[n] && ts'[n + 1] == ts[n + 1] && es'[n] == es[n]; }
    }
  }

  /**
   * A proof by one-time code was earned: the verification spent an attempt of the challenge before it
   * expired and while it was unconsumed, and submitted the very code that was issued, less than its
   * lifetime before, to the same member, session and interaction.
   */
  lemma ProofWasEarned(tr: seq<State>, steps: seq<Step>, cfg: Config, p: Policy, i: nat, itsId: string, sid: Sid, uid: string, x: Proven)
    returns (otps: seq<Otps.State>, moves: seq<Otps.Step>, m: nat, n: nat)
    requires IsRun(tr, steps, cfg, p) && i < |tr| && Evidence(tr[i], itsId, sid, uid, x) && x.proof.OtpProof?
    ensures Otps.IsRun(otps, moves) && otps[|moves|] == tr[i].otp && Otps.SpentAt(otps, moves, n, x.proof.v)
    ensures var c := otps[n].rows[otps[n].running[x.proof.v].id];
      otps[n].now < c.expiresAt && c.consumedAt.None? && c.attempts < c.maxAttempts
    ensures m < n && moves[m].Issue? && moves[m].owner == OwnerOf(itsId, sid, uid) && moves[m].code == tr[i].otp.running[x.proof.v].code
    ensures otps[n].now < otps[m].now + 1000 * moves[m].ttl
    ensures var v := tr[i].otp.running[x.proof.v];
      && v.owner == OwnerOf(itsId, sid, uid) && v.id in tr[i].otp.rows
      && tr[i].otp.rows[v.id].owner == v.owner && tr[i].otp.rows[v.id].hash == Otps.CodeHash(v.code, v.owner)
  {
    otps, moves := OtpRun(tr, steps, cfg, p, i);
    m, n := Otps.SuccessHadTheCode(otps, moves, |moves|, x.proof.v);
  }

  /**
   * A proof by TOTP was earned: at step `n` a request of this member, session and interaction had
   * submitted the code, which is the six-digit code of that time step under the member's secret, the first
   * that matches in the window around the clock. The database accepted the step in a run of the TOTP
   * protocol, so it is newer than every step accepted before.
   */
  lemma TotpProofWasEarned(tr: seq<State>, steps: seq<Step>, cfg: Config, p: Policy, i: nat, itsId: string, sid: Sid, uid: string, x: Proven)
    returns (n: nat, ts: seq<Totps.State>, es: seq<Totps.Event>)
    requires IsRun(tr, steps, cfg, p) && i < |tr| && Evidence(tr[i], itsId, sid, uid, x) && x.proof.TotpProof?
    ensures var m := x.proof.m;
      && n < i && MatchedAt(tr[n], steps[n], itsId, m) && tr[n].sessions.now == x.at
      && tr[n].mfa[steps[n].q].session.sid == sid && tr[n].mfa[steps[n].q].uid == uid
      && Totps.Genuine(p.hmac, tr[i].totp[itsId].secret, m) && Totps.SixDigits(m.code)
    ensures Totps.IsRun(ts, es, p.hmac) && ts[|es|] == tr[i].totp[itsId] && x.proof.m in ts[|es|].accepted
  {
    var m := x.proof.m;
    n := TotpMatched(tr, steps, cfg, p, i, itsId, m);
    ts, es := TotpRun(tr, steps, cfg, p, i, itsId);
    Totps.AcceptedSteps(ts, es, p.hmac, |es|);
    DecimalParses(sid);
    DecimalParses(tr[n].mfa[steps[n].q].session.sid);
  }

  /** One proof is of the second factor of one member, session and interaction, at one moment, only. */
  lemma ProofNamesSession(s: State, x: Proof, itsA: string, a: Sid, uidA: string, atA: int, itsB: string, b: Sid, uidB: string, atB: int)
    requires Evidence(s, itsA, a, uidA, Proven(x, atA)) && Evidence(s, itsB, b, uidB, Proven(x, atB))
    ensures itsA == itsB && a == b && uidA == uidB && atA == atB
  {
    DecimalParses(a);
    DecimalParses(b);
  }
}
