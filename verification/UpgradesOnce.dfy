/**
 * A second factor is spent once: over whole runs, no OTP challenge and no time step of a member's TOTP
 * factor supports more than one upgrade, however many requests submit its code at the same time.
 */
module UpgradesOnce {
  import opened Common
  import opened GlobalSession
  import opened Assurance
  import Otps = OtpChallenge
  import Totps = Totp

  /** Both proofs use up the same challenge, or the same time step of one member's factor. */
  predicate SameSpent(s: State, itsA: string, a: Proof, itsB: string, b: Proof)
  {
    if a.OtpProof? && b.OtpProof? then
      a.v in s.otp.running && b.v in s.otp.running && s.otp.running[a.v].id == s.otp.running[b.v].id
    else a.TotpProof? && b.TotpProof? && itsA == itsB && a.m.step == b.m.step
  }

  /** The request holds a proof that no upgrade has used yet. */
  predicate Holds(s: State, q: nat)
  {
    q in s.mfa && s.mfa[q].proven.Some?
  }

  predicate RaisesApart(s: State, i: nat, j: nat)
    requires i < |s.raises| && j < |s.raises|
  {
    !SameSpent(s, s.raises[i].itsId, s.raises[i].proven.proof, s.raises[j].itsId, s.raises[j].proven.proof)
  }

  predicate RaiseAndRequestApart(s: State, i: nat, q: nat)
    requires i < |s.raises| && Holds(s, q)
  {
    !SameSpent(s, s.raises[i].itsId, s.raises[i].proven.proof, s.mfa[q].session.itsId, s.mfa[q].proven.value.proof)
  }

  predicate RequestsApart(s: State, q: nat, r: nat)
    requires Holds(s, q) && Holds(s, r)
  {
    !SameSpent(s, s.mfa[q].session.itsId, s.mfa[q].proven.value.proof, s.mfa[r].session.itsId, s.mfa[r].proven.value.proof)
  }

  ghost predicate Once(s: State)
  {
    && (forall i, j | 0 <= i < j < |s.raises| :: RaisesApart(s, i, j))
    && (forall i, q | 0 <= i < |s.raises| && Holds(s, q) :: RaiseAndRequestApart(s, i, q))
    && (forall q, r | Holds(s, q) && Holds(s, r) && q != r :: RequestsApart(s, q, r))
  }

  /** An OTP verification belongs to one request, and its proof to that request or its upgrade. */
  ghost predicate OwnVerifications(s: State)
  {
    && (forall q, r | q in s.mfa && r in s.mfa && q != r && s.mfa[q].via.ByOtp? && s.mfa[r].via.ByOtp? :: s.mfa[q].via.v != s.mfa[r].via.v)
    && (forall q | Holds(s, q) && s.mfa[q].proven.value.proof.OtpProof? ::
          s.mfa[q].via.ByOtp? && s.mfa[q].proven.value.proof.v == s.mfa[q].via.v)
    && (forall i, q | 0 <= i < |s.raises| && q in s.mfa && s.mfa[q].via.ByOtp? && s.raises[i].proven.proof.OtpProof? ::
          s.raises[i].proven.proof.v != s.mfa[q].via.v)
  }

  // ---- every step keeps both ---------------------------------------------------------------------------

  /** What an earlier proof uses up does not change. */
  lemma SameSpentLater(s: State, s': State, itsA: string, a: Proof, itsB: string, b: Proof)
    requires Grows(s, s')
    requires a.OtpProof? ==> Otps.IsVerified(s.otp, a.v)
    requires b.OtpProof? ==> Otps.IsVerified(s.otp, b.v)
    ensures SameSpent(s', itsA, a, itsB, b) == SameSpent(s, itsA, a, itsB, b)
  {
  }

  /** Every proof by OTP is of a verification that succeeded. */
  ghost predicate Verified(s: State)
  {
    && (forall i | 0 <= i < |s.raises| && s.raises[i].proven.proof.OtpProof? :: Otps.IsVerified(s.otp, s.raises[i].proven.proof.v))
    && (forall q | Holds(s, q) && s.mfa[q].proven.value.proof.OtpProof? :: Otps.IsVerified(s.otp, s.mfa[q].proven.value.proof.v))
  }

  lemma ProofsVerified(s: State, cfg: Config, p: Policy)
    requires Inv(s, cfg, p)
    ensures Verified(s)
  {
    forall i | 0 <= i < |s.raises| && s.raises[i].proven.proof.OtpProof? ensures Otps.IsVerified(s.otp, s.raises[i].proven.proof.v) {
      assert RaiseOk(s, s.raises[i]);
    }
    forall q | Holds(s, q) && s.mfa[q].proven.value.proof.OtpProof? ensures Otps.IsVerified(s.otp, s.mfa[q].proven.value.proof.v) {
      assert MfaOk(s, s.mfa[q]);
    }
  }

  /** The proof of a code just noticed as verified, or of a step just accepted, for request `q`. */
  ghost predicate IsNewProof(s: State, q: nat, x: Proof)
    requires q in s.mfa
  {
    match x
    case OtpProof(v) => s.mfa[q].via.ByOtp? && v == s.mfa[q].via.v && Otps.IsVerified(s.otp, v)
    case TotpProof(m) =>
      var its := s.mfa[q].session.itsId;
      s.mfa[q].via.ByTotp? && its in s.totp && (s.totp[its].last.None? || s.totp[its].last.value < m.step)
  }

  lemma LaterStep(t: Totps.State, hmac: Totps.Hmac, m: Totps.Match, step: nat)
    requires Totps.Inv(t, hmac) && m in t.accepted && (t.last.None? || t.last.value < step)
    ensures m.step < step
  {
    var k :| 0 <= k < |t.accepted| && t.accepted[k] == m;
    assert m.step <= t.accepted[|t.accepted| - 1].step;
  }

  lemma NewStepApart(s: State, p: Policy, its: string, m: Totps.Match, itsId: string, sid: Sid, uid: string, y: Proven)
    requires its in s.totp && Totps.Inv(s.totp[its], p.hmac) && Totps.NewStep(s.totp[its].last, m.step)
    requires Evidence(s, itsId, sid, uid, y)
    ensures !SameSpent(s, itsId, y.proof, its, TotpProof(m)) && !SameSpent(s, its, TotpProof(m), itsId, y.proof)
  {
    if y.proof.TotpProof? && itsId == its { LaterStep(s.totp[its], p.hmac, y.proof.m, m.step); }
  }

  lemma NewCodeApart(s: State, its: string, v: nat, itsId: string, sid: Sid, uid: string, y: Proven)
    requires Otps.OneWinner(s.otp) && Otps.IsVerified(s.otp, v)
    requires Evidence(s, itsId, sid, uid, y) && (y.proof.OtpProof? ==> y.proof.v != v)
    ensures !SameSpent(s, itsId, y.proof, its, OtpProof(v)) && !SameSpent(s, its, OtpProof(v), itsId, y.proof)
  {
  }

  /** A new proof uses up nothing that an earlier one used up. */
  lemma NewProofApart(s: State, cfg: Config, p: Policy, q: nat, x: Proof, itsId: string, sid: Sid, uid: string, y: Proven)
    requires PartsOk(s, cfg, p) && q in s.mfa && IsNewProof(s, q, x)
    requires Evidence(s, itsId, sid, uid, y) && (s.mfa[q].via.ByOtp? && y.proof.OtpProof? ==> y.proof.v != s.mfa[q].via.v)
    ensures !SameSpent(s, itsId, y.proof, s.mfa[q].session.itsId, x) && !SameSpent(s, s.mfa[q].session.itsId, x, itsId, y.proof)
  {
    match x
    case OtpProof(v) => NewCodeApart(s, s.mfa[q].session.itsId, v, itsId, sid, uid, y);
    case TotpProof(m) => NewStepApart(s, p, s.mfa[q].session.itsId, m, itsId, sid, uid, y);
  }

  /** No upgrade and no other request than `q` uses up what the proof uses up. */
  ghost predicate Unspent(s: State, q: nat, its: string, x: Proof)
  {
    && (x.OtpProof? ==> Otps.IsVerified(s.otp, x.v))
    && (forall i | 0 <= i < |s.raises| :: !SameSpent(s, s.raises[i].itsId, s.raises[i].proven.proof, its, x))
    && (forall r | Holds(s, r) && r != q ::
          && !SameSpent(s, s.mfa[r].session.itsId, s.mfa[r].proven.value.proof, its, x)
          && !SameSpent(s, its, x, s.mfa[r].session.itsId, s.mfa[r].proven.value.proof))
  }

  lemma ApartFromRaise(s: State, cfg: Config, p: Policy, q: nat, x: Proof, i: nat)
    requires Inv(s, cfg, p) && OwnVerifications(s) && q in s.mfa && IsNewProof(s, q, x) && i < |s.raises|
    ensures !SameSpent(s, s.raises[i].itsId, s.raises[i].proven.proof, s.mfa[q].session.itsId, x)
  {
    var u := s.raises[i];
    assert RaiseOk(s, u);
    NewProofApart(s, cfg, p, q, x, u.itsId, u.sid, u.uid, u.proven);
  }

  lemma ApartFromRequest(s: State, cfg: Config, p: Policy, q: nat, x: Proof, r: nat)
    requires Inv(s, cfg, p) && OwnVerifications(s) && q in s.mfa && IsNewProof(s, q, x) && Holds(s, r) && r != q
    ensures !SameSpent(s, s.mfa[r].session.itsId, s.mfa[r].proven.value.proof, s.mfa[q].session.itsId, x)
    ensures !SameSpent(s, s.mfa[q].session.itsId, x, s.mfa[r].session.itsId, s.mfa[r].proven.value.proof)
  {
    var y := s.mfa[r];
    assert MfaOk(s, y);
    NewProofApart(s, cfg, p, q, x, y.session.itsId, y.session.sid, y.uid, y.proven.value);
  }

  lemma NewProofUnspent(s: State, cfg: Config, p: Policy, q: nat, x: Proof)
    requires Inv(s, cfg, p) && OwnVerifications(s) && q in s.mfa && IsNewProof(s, q, x)
    ensures Unspent(s, q, s.mfa[q].session.itsId, x)
  {
    var its := s.mfa[q].session.itsId;
    forall i | 0 <= i < |s.raises| ensures !SameSpent(s, s.raises[i].itsId, s.raises[i].proven.proof, its, x) {
      ApartFromRaise(s, cfg, p, q, x, i);
    }
    forall r | Holds(s, r) && r != q
      ensures && !SameSpent(s, s.mfa[r].session.itsId, s.mfa[r].proven.value.proof, its, x)
              && !SameSpent(s, its, x, s.mfa[r].session.itsId, s.mfa[r].proven.value.proof)
    {
      ApartFromRequest(s, cfg, p, q, x, r);
    }
  }

  // ---- how a step moves proofs -------------------------------------------------------------------------

  /** Request `q` ends with an upgrade that takes its proof, or nothing is upgraded. */
  ghost predicate RaiseMoved(s: State, s': State, q: nat)
  {
    || s'.raises == s.raises
    || (Holds(s, q) && q !in s'.mfa && |s'.raises| == |s.raises| + 1 && s'.raises[..|s.raises|] == s.raises
        && s'.raises[|s.raises|].itsId == s.mfa[q].session.itsId && s'.raises[|s.raises|].proven == s.mfa[q].proven.value)
  }

  /** What request `r` holds it held before, or it is `q` and its proof is new. */
  ghost predicate HoldMoved(s: State, s': State, q: nat, r: nat)
    requires Holds(s', r)
  {
    || (Holds(s, r) && s.mfa[r] == s'.mfa[r])
    || (r == q && r in s.mfa && s.mfa[r].proven.None? && s.mfa[r].(proven := s'.mfa[r].proven) == s'.mfa[r]
        && IsNewProof(s, r, s'.mfa[r].proven.value.proof))
  }

  function RequestOf(st: Step): nat
  {
    match st
    case NoticeOtp(q) => q
    case AskTotp(q) => q
    case RaiseLevel(q, _) => q
    case _ => 0
  }

  lemma RaiseMoves(s: State, st: Step, cfg: Config, p: Policy)
    requires Enabled(s, st, p)
    ensures RaiseMoved(s, Apply(s, st, cfg, p), RequestOf(st))
  {
  }

  lemma HoldMoves(s: State, st: Step, cfg: Config, p: Policy, r: nat)
    requires Enabled(s, st, p) && Holds(Apply(s, st, cfg, p), r)
    ensures HoldMoved(s, Apply(s, st, cfg, p), RequestOf(st), r)
  {
  }

  /** What is held after a step was held before, or nobody else uses it up. */
  ghost predicate Moved(s: State, s': State, q: nat)
  {
    && Grows(s, s') && Verified(s) && RaiseMoved(s, s', q)
    && forall r | Holds(s', r) ::
         || (Holds(s, r) && s.mfa[r] == s'.mfa[r])
         || (r == q && s.raises == s'.raises && Unspent(s, q, s'.mfa[r].session.itsId, s'.mfa[r].proven.value.proof))
  }

  lemma StepMoves(s: State, st: Step, cfg: Config, p: Policy)
    requires Inv(s, cfg, p) && OwnVerifications(s) && Enabled(s, st, p)
    ensures Moved(s, Apply(s, st, cfg, p), RequestOf(st))
  {
    var s', q := Apply(s, st, cfg, p), RequestOf(st);
    StepGrows(s, st, cfg, p);
    ProofsVerified(s, cfg, p);
    RaiseMoves(s, st, cfg, p);
    forall r | Holds(s', r)
      ensures || (Holds(s, r) && s.mfa[r] == s'.mfa[r])
              || (r == q && s.raises == s'.raises && Unspent(s, q, s'.mfa[r].session.itsId, s'.mfa[r].proven.value.proof))
    {
      HoldMoves(s, st, cfg, p, r);
      if !(Holds(s, r) && s.mfa[r] == s'.mfa[r]) { NewProofUnspent(s, cfg, p, q, s'.mfa[r].proven.value.proof); }
    }
  }

  lemma RaisesStayApart(s: State, s': State, q: nat, i: nat, j: nat)
    requires Moved(s, s', q) && Once(s) && i < j < |s'.raises|
    ensures RaisesApart(s', i, j)
  {
    SameSpentLater(s, s', s'.raises[i].itsId, s'.raises[i].proven.proof, s'.raises[j].itsId, s'.raises[j].proven.proof);
    if j < |s.raises| { assert RaisesApart(s, i, j); } else { assert RaiseAndRequestApart(s, i, q); }
  }

  lemma RaiseAndRequestStayApart(s: State, s': State, q: nat, i: nat, r: nat)
    requires Moved(s, s', q) && Once(s) && i < |s'.raises| && Holds(s', r)
    ensures RaiseAndRequestApart(s', i, r)
  {
    SameSpentLater(s, s', s'.raises[i].itsId, s'.raises[i].proven.proof, s'.mfa[r].session.itsId, s'.mfa[r].proven.value.proof);
    if Holds(s, r) && s.mfa[r] == s'.mfa[r] {
      if i < |s.raises| { assert RaiseAndRequestApart(s, i, r); } else { assert RequestsApart(s, q, r); }
    }
  }

  lemma RequestsStayApart(s: State, s': State, q: nat, a: nat, b: nat)
    requires Moved(s, s', q) && Once(s) && Holds(s', a) && Holds(s', b) && a != b
    ensures RequestsApart(s', a, b)
  {
    var x, y := s'.mfa[a], s'.mfa[b];
    SameSpentLater(s, s', x.session.itsId, x.proven.value.proof, y.session.itsId, y.proven.value.proof);
    if Holds(s, a) && s.mfa[a] == x && Holds(s, b) && s.mfa[b] == y { assert RequestsApart(s, a, b); }
  }

  lemma OnceKept(s: State, s': State, q: nat)
    requires Moved(s, s', q) && Once(s)
    ensures Once(s')
  {
    forall i, j | 0 <= i < j < |s'.raises| ensures RaisesApart(s', i, j) { RaisesStayApart(s, s', q, i, j); }
    forall i, r | 0 <= i < |s'.raises| && Holds(s', r) ensures RaiseAndRequestApart(s', i, r) { RaiseAndRequestStayApart(s, s', q, i, r); }
    forall a, b | Holds(s', a) && Holds(s', b) && a != b ensures RequestsApart(s', a, b) { RequestsStayApart(s, s', q, a, b); }
  }

  // ---- verifications and their requests ----------------------------------------------------------------

  /** The request and its verification were there before, or the step begins it with a new verification. */
  ghost predicate RequestMoved(s: State, s': State, b: Option<nat>, r: nat)
    requires r in s'.mfa
  {
    || (r in s.mfa && s.mfa[r].via == s'.mfa[r].via)
    || (b == Some(r) && s'.mfa[r].proven.None? && s'.raises == s.raises && (s'.mfa[r].via.ByOtp? ==> s'.mfa[r].via.v !in s.otp.running))
  }

  lemma RequestMoves(s: State, st: Step, cfg: Config, p: Policy, r: nat)
    requires Enabled(s, st, p) && r in Apply(s, st, cfg, p).mfa
    ensures RequestMoved(s, Apply(s, st, cfg, p), if st.Begin? then Some(st.q) else None, r)
  {
  }

  ghost predicate Running(s: State)
  {
    && Verified(s) && forall q | q in s.mfa && s.mfa[q].via.ByOtp? :: s.mfa[q].via.v in s.otp.running
  }

  lemma RequestsRunning(s: State, cfg: Config, p: Policy)
    requires Inv(s, cfg, p)
    ensures Running(s)
  {
    ProofsVerified(s, cfg, p);
    forall q | q in s.mfa && s.mfa[q].via.ByOtp? ensures s.mfa[q].via.v in s.otp.running { assert MfaOk(s, s.mfa[q]); }
  }

  lemma OwnLater(s: State, s': State, b: Option<nat>, q: nat)
    requires Running(s) && OwnVerifications(s) && RaiseMoved(s, s', q)
    requires forall r | r in s'.mfa :: RequestMoved(s, s', b, r)
    requires forall r | Holds(s', r) :: HoldMoved(s, s', q, r)
    ensures OwnVerifications(s')
  {
    forall r | Holds(s', r) && s'.mfa[r].proven.value.proof.OtpProof?
      ensures s'.mfa[r].via.ByOtp? && s'.mfa[r].proven.value.proof.v == s'.mfa[r].via.v
    {
      assert HoldMoved(s, s', q, r);
    }
  }

  lemma OwnVerificationsKept(s: State, st: Step, cfg: Config, p: Policy)
    requires Inv(s, cfg, p) && OwnVerifications(s) && Enabled(s, st, p)
    ensures OwnVerifications(Apply(s, st, cfg, p))
  {
    var s' := Apply(s, st, cfg, p);
    var b := if st.Begin? then Some(st.q) else None;
    RequestsRunning(s, cfg, p);
    RaiseMoves(s, st, cfg, p);
    forall r | r in s'.mfa ensures RequestMoved(s, s', b, r) { RequestMoves(s, st, cfg, p, r); }
    forall r | Holds(s', r) ensures HoldMoved(s, s', RequestOf(st), r) { HoldMoves(s, st, cfg, p, r); }
    OwnLater(s, s', b, RequestOf(st));
  }

  // ---- whole runs --------------------------------------------------------------------------------------

  lemma {:induction false} SpentApart(tr: seq<State>, steps: seq<Step>, cfg: Config, p: Policy, i: nat)
    requires IsRun(tr, steps, cfg, p) && i < |tr|
    ensures Inv(tr[i], cfg, p) && Once(tr[i]) && OwnVerifications(tr[i])
  {
    Reachable(tr, steps, cfg, p, i);
    if i > 0 {
      SpentApart(tr, steps, cfg, p, i - 1);
      StepOf(tr, steps, cfg, p, i - 1);
      StepMoves(tr[i - 1], steps[i - 1], cfg, p);
      OnceKept(tr[i - 1], tr[i], RequestOf(steps[i - 1]));
      OwnVerificationsKept(tr[i - 1], steps[i - 1], cfg, p);
    }
  }

  lemma EarlierApart(s: State, j: nat, k: nat)
    requires Once(s) && j < k < |s.raises|
    ensures !SameSpent(s, s.raises[j].itsId, s.raises[j].proven.proof, s.raises[k].itsId, s.raises[k].proven.proof)
    ensures !SameSpent(s, s.raises[k].itsId, s.raises[k].proven.proof, s.raises[j].itsId, s.raises[j].proven.proof)
  {
    assert RaisesApart(s, j, k);
  }

  /** Over every run, two upgrades that used up the same challenge or the same time step are the same upgrade. */
  lemma OneUpgradePerProof(tr: seq<State>, steps: seq<Step>, cfg: Config, p: Policy, i: nat, j: nat, k: nat)
    requires IsRun(tr, steps, cfg, p) && i < |tr| && j < |tr[i].raises| && k < |tr[i].raises|
    requires SameSpent(tr[i], tr[i].raises[j].itsId, tr[i].raises[j].proven.proof, tr[i].raises[k].itsId, tr[i].raises[k].proven.proof)
    ensures j == k
  {
    SpentApart(tr, steps, cfg, p, i);
    if j < k { EarlierApart(tr[i], j, k); }
    if k < j { EarlierApart(tr[i], k, j); }
  }
}
