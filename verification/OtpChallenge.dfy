/**
 * One-time codes by email or SMS: the challenge row, and any number of verifications of one
 * challenge running at the same time, interleaved at their database calls.
 */
module OtpChallenge {
  import opened Common

  type Id = nat

  /** Who a code was sent to: member, Core session and interaction. */
  datatype Owner = Owner(itsId: string, sid: string, uid: string)
  datatype Channel = Email | Sms

  /**
   * The text under the HMAC. The HMAC is taken as injective on the texts in use, so the stored hash
   * is represented by its text.
   */
  function CodeHash(code: string, o: Owner): string
  {
    code + ":" + o.itsId + ":" + o.sid + ":" + o.uid
  }

  datatype Challenge = Challenge(
    owner: Owner, channel: Channel, hash: string, attempts: nat, maxAttempts: nat, expiresAt: int, consumedAt: Option<int>)

  datatype Verdict =
    | Verified(channel: Channel)
    | InvalidCode(remaining: int)
    | CodeExpired
    | TooManyAttempts

  // ---- the conditional updates --------------------------------------------------------------------------

  predicate Spendable(c: Challenge, now: int)
  {
    c.consumedAt.None? && now < c.expiresAt && c.attempts < c.maxAttempts
  }

  function Spend(rows: map<Id, Challenge>, id: Id, now: int): map<Id, Challenge>
  {
    if id in rows && Spendable(rows[id], now) then rows[id := rows[id].(attempts := rows[id].attempts + 1)] else rows
  }

  predicate Consumable(rows: map<Id, Challenge>, id: Id)
  {
    id in rows && rows[id].consumedAt.None?
  }

  function Consume(rows: map<Id, Challenge>, id: Id, now: int): map<Id, Challenge>
  {
    if Consumable(rows, id) then rows[id := rows[id].(consumedAt := Some(now))] else rows
  }

  class OtpChallengeRepository {
    var rows: map<Id, Challenge>

    method FindById(id: Id) returns (c: Option<Challenge>)
      ensures c == if id in rows then Some(rows[id]) else None
    {
      if id in rows { return Some(rows[id]); }
      return None;
    }

    /** The attempt number, or None when the challenge is consumed, expired or out of attempts. */
    method SpendAttempt(id: Id, now: int) returns (attempt: Option<nat>)
      modifies this
      ensures rows == Spend(old(rows), id, now)
      ensures attempt.Some? <==>
                && id in old(rows) && old(rows)[id].consumedAt.None? && now < old(rows)[id].expiresAt
                && old(rows)[id].attempts < old(rows)[id].maxAttempts
      ensures attempt.Some? ==> attempt.value == rows[id].attempts
    {
      if id !in rows || rows[id].consumedAt.Some? || rows[id].expiresAt <= now || rows[id].attempts >= rows[id].maxAttempts {
        return None;
      }
      rows := rows[id := rows[id].(attempts := rows[id].attempts + 1)];
      return Some(rows[id].attempts);
    }

    method ConsumeChallenge(id: Id, now: int) returns (won: bool)
      modifies this
      ensures rows == Consume(old(rows), id, now)
      ensures won <==> Consumable(old(rows), id)
    {
      if id !in rows || rows[id].consumedAt.Some? { return false; }
      rows := rows[id := rows[id].(consumedAt := Some(now))];
      return true;
    }

    /** verifyOtp when nothing else touches the challenge meanwhile; None is a malformed challenge id. */
    method VerifyOtp(owner: Owner, challengeId: Option<Id>, code: string, now: int) returns (v: Verdict)
      modifies this
      ensures var mine := challengeId.Some? && challengeId.value in old(rows) && old(rows)[challengeId.value].owner == owner;
              && (!mine ==> v == CodeExpired && rows == old(rows))
              && (mine ==>
                    var id, c := challengeId.value, old(rows)[challengeId.value];
                    && (v.Verified? <==>
                          c.consumedAt.None? && now < c.expiresAt && c.attempts < c.maxAttempts && c.hash == CodeHash(code, owner))
                    && (v.InvalidCode? <==>
                          c.consumedAt.None? && now < c.expiresAt && c.attempts + 1 < c.maxAttempts && c.hash != CodeHash(code, owner))
                    && (v.InvalidCode? ==> v.remaining == c.maxAttempts - c.attempts - 1)
                    && (v.Verified? ==> v.channel == c.channel)
                    && (v.CodeExpired? <==> (c.consumedAt.Some? || now >= c.expiresAt) && c.attempts < c.maxAttempts)
                    && rows == if v.Verified? then Consume(Spend(old(rows), id, now), id, now) else Spend(old(rows), id, now))
    {
      if challengeId.None? { return CodeExpired; }
      var id := challengeId.value;
      var found := FindById(id);
      if found.None? || found.value.owner != owner { return CodeExpired; }
      var c := found.value;
      var attempt := SpendAttempt(id, now);
      if attempt.None? {
        return if c.attempts >= c.maxAttempts then TooManyAttempts else CodeExpired;
      }
      if CodeHash(code, owner) != c.hash {
        var remaining := c.maxAttempts - attempt.value;
        return if remaining > 0 then InvalidCode(remaining) else TooManyAttempts;
      }
      var won := ConsumeChallenge(id, now);
      if !won { return CodeExpired; }
      return Verified(c.channel);
    }
  }

  // ---- what the hash binds ---------------------------------------------------------------------------------

  /** For one member, session and interaction, equal hashes are equal codes. */
  lemma SameCode(a: string, b: string, o: Owner)
    requires CodeHash(a, o) == CodeHash(b, o)
    ensures a == b
  {
    var tail := ":" + o.itsId + ":" + o.sid + ":" + o.uid;
    assert CodeHash(a, o) == a + tail && CodeHash(b, o) == b + tail;
    assert a == (a + tail)[..|a|] && b == (b + tail)[..|b|];
  }

  /**
   * An issued code, an ITS id and a session id have no colon. A submitted code `b` with the same hash is
   * the issued one, submitted by the same owner, if and only if it has no colon either.
   */
  lemma SameOwner(a: string, o: Owner, b: string, p: Owner)
    requires ':' !in a && ':' !in o.itsId && ':' !in p.itsId && ':' !in o.sid && ':' !in p.sid
    requires CodeHash(a, o) == CodeHash(b, p)
    ensures a == b && o == p <==> ':' !in b
  {
    if ':' !in b {
      assert CodeHash(a, o) == a + ":" + (o.itsId + ":" + (o.sid + ":" + o.uid));
      assert CodeHash(b, p) == b + ":" + (p.itsId + ":" + (p.sid + ":" + p.uid));
      FirstField(a, o.itsId + ":" + (o.sid + ":" + o.uid), b, p.itsId + ":" + (p.sid + ":" + p.uid));
      FirstField(o.itsId, o.sid + ":" + o.uid, p.itsId, p.sid + ":" + p.uid);
      FirstField(o.sid, o.uid, p.sid, p.uid);
    }
  }

  /** A submitted code with a colon can have the hash of a code that was issued to somebody else. */
  lemma ColonShiftsFields()
    ensures CodeHash("12", Owner("7", "8", "9:u")) == CodeHash("12:7", Owner("8", "9", "u"))
  {
    assert CodeHash("12", Owner("7", "8", "9:u")) == "12:7:8:9:u";
    assert CodeHash("12:7", Owner("8", "9", "u")) == "12:7:8:9:u";
  }

  lemma FirstField(a: string, x: string, b: string, y: string)
    requires ':' !in a && ':' !in b && a + ":" + x == b + ":" + y
    ensures a == b && x == y
  {
    if |a| < |b| { ColonInside(a, x, b, y); }
    if |b| < |a| { ColonInside(b, y, a, x); }
    var s, t := a + ":" + x, b + ":" + y;
    assert a == s[..|a|] && b == t[..|b|];
    assert x == s[|a| + 1..] && y == t[|b| + 1..];
  }

  lemma ColonInside(a: string, x: string, b: string, y: string)
    requires a + ":" + x == b + ":" + y && |a| < |b|
    ensures ':' in b
  {
    assert (a + ":" + x)[|a|] == ':' && (b + ":" + y)[|a|] == b[|a|];
  }

  // ---- many verifications of the same challenges ----------------------------------------------------------

  /** Where one verification stands; `row` is what its findById returned. */
  datatype Phase =
    | Started
    | Found(row: Challenge)
    | Spent(row: Challenge, attempt: nat)
    | Matched(row: Challenge)
    | Finished(verdict: Verdict)

  datatype Verification = Verification(id: Id, owner: Owner, code: string, phase: Phase)

  /** `compared` lists, per challenge, the attempt numbers whose code was compared; `wins` the Verified verdicts. */
  datatype State = State(
    now: int, rows: map<Id, Challenge>, running: map<nat, Verification>, compared: map<Id, seq<nat>>, wins: map<Id, nat>)

  datatype Step =
    | Wait(to: int)
    | Issue(id: Id, owner: Owner, channel: Channel, code: string, maxAttempts: nat, ttl: nat)
    | Withdraw(id: Id)
    | Submit(v: nat, id: Id, owner: Owner, code: string)
    | Look(v: nat)
    | SpendOne(v: nat)
    | Compare(v: nat)
    | ConsumeIt(v: nat)

  predicate Enabled(s: State, st: Step)
  {
    match st
    case Wait(to) => s.now <= to
    case Issue(id, _, _, _, maxAttempts, _) => id !in s.rows && maxAttempts > 0
    case Withdraw(_) => true
    case Submit(v, _, _, _) => v !in s.running
    case Look(v) => v in s.running && s.running[v].phase.Started?
    case SpendOne(v) => v in s.running && s.running[v].phase.Found?
    case Compare(v) => v in s.running && s.running[v].phase.Spent?
    case ConsumeIt(v) => v in s.running && s.running[v].phase.Matched?
  }

  function Move(s: State, v: nat, phase: Phase): State
    requires v in s.running
  {
    s.(running := s.running[v := s.running[v].(phase := phase)])
  }

  function Compared(s: State, id: Id): seq<nat>
  {
    if id in s.compared then s.compared[id] else []
  }

  function Wins(s: State, id: Id): nat
  {
    if id in s.wins then s.wins[id] else 0
  }

  function Apply(s: State, st: Step): State
    requires Enabled(s, st)
  {
    match st
    case Wait(to) => s.(now := to)
    case Issue(id, owner, channel, code, maxAttempts, ttl) =>
      s.(rows := s.rows[id := Challenge(owner, channel, CodeHash(code, owner), 0, maxAttempts, s.now + 1000 * ttl, None)])
    case Withdraw(id) => s.(rows := Consume(s.rows, id, s.now))
    case Submit(v, id, owner, code) => s.(running := s.running[v := Verification(id, owner, code, Started)])
    case Look(v) =>
      var r := s.running[v];
      Move(s, v, if r.id in s.rows && s.rows[r.id].owner == r.owner then Found(s.rows[r.id]) else Finished(CodeExpired))
    case SpendOne(v) =>
      var r := s.running[v];
      if r.id in s.rows && Spendable(s.rows[r.id], s.now) then
        Move(s.(rows := Spend(s.rows, r.id, s.now)), v, Spent(r.phase.row, s.rows[r.id].attempts + 1))
      else
        Move(s, v, Finished(if r.phase.row.attempts >= r.phase.row.maxAttempts then TooManyAttempts else CodeExpired))
    case Compare(v) =>
      var r := s.running[v];
      var s1 := s.(compared := s.compared[r.id := Compared(s, r.id) + [r.phase.attempt]]);
      var remaining := r.phase.row.maxAttempts - r.phase.attempt;
      Move(s1, v, if CodeHash(r.code, r.owner) == r.phase.row.hash then Matched(r.phase.row)
                  else Finished(if remaining > 0 then InvalidCode(remaining) else TooManyAttempts))
    case ConsumeIt(v) =>
      var r := s.running[v];
      if Consumable(s.rows, r.id) then
        Move(s.(rows := Consume(s.rows, r.id, s.now), wins := s.wins[r.id := Wins(s, r.id) + 1]), v, Finished(Verified(r.phase.row.channel)))
      else Move(s, v, Finished(CodeExpired))
  }

  predicate SameChallenge(row: Challenge, c: Challenge)
  {
    row.owner == c.owner && row.channel == c.channel && row.hash == c.hash && row.maxAttempts == c.maxAttempts && row.expiresAt == c.expiresAt
  }

  predicate RunningOk(s: State, v: nat)
    requires v in s.running
  {
    var r := s.running[v];
    match r.phase
    case Started => true
    case Found(row) => r.id in s.rows && SameChallenge(row, s.rows[r.id]) && r.owner == row.owner
    case Spent(row, n) =>
      && r.id in s.rows && SameChallenge(row, s.rows[r.id]) && r.owner == row.owner
      && 0 < n <= s.rows[r.id].attempts && n !in Compared(s, r.id)
    case Matched(row) =>
      r.id in s.rows && SameChallenge(row, s.rows[r.id]) && r.owner == row.owner && CodeHash(r.code, r.owner) == row.hash
    case Finished(verdict) =>
      verdict.Verified? ==>
        && r.id in s.rows && s.rows[r.id].owner == r.owner && s.rows[r.id].hash == CodeHash(r.code, r.owner)
        && s.rows[r.id].consumedAt.Some?
  }

  predicate RowOk(s: State, id: Id)
    requires id in s.rows
  {
    s.rows[id].attempts <= s.rows[id].maxAttempts && Wins(s, id) <= (if s.rows[id].consumedAt.Some? then 1 else 0)
  }

  ghost predicate OwnAttempts(s: State)
  {
    forall v, w | v in s.running && w in s.running && v != w && s.running[v].id == s.running[w].id
                  && s.running[v].phase.Spent? && s.running[w].phase.Spent? ::
      s.running[v].phase.attempt != s.running[w].phase.attempt
  }

  predicate ComparedOk(s: State, id: Id)
  {
    && (forall i, j | 0 <= i < j < |Compared(s, id)| :: Compared(s, id)[i] != Compared(s, id)[j])
    && (forall n | n in Compared(s, id) :: id in s.rows && 0 < n <= s.rows[id].attempts)
  }

  ghost predicate Inv(s: State)
  {
    && (forall id | id in s.rows :: RowOk(s, id))
    && (forall v | v in s.running :: RunningOk(s, v))
    && OwnAttempts(s)
    && (forall id :: ComparedOk(s, id))
    && (forall id :: id !in s.rows ==> Wins(s, id) == 0)
  }

  lemma RowGrows(s: State, st: Step, id: Id)
    requires Enabled(s, st) && id in s.rows
    ensures var c, rows := s.rows[id], Apply(s, st).rows;
      id in rows && SameChallenge(c, rows[id]) && c.attempts <= rows[id].attempts && (c.consumedAt.Some? ==> rows[id].consumedAt.Some?)
  {
  }

  lemma RowKeeps(s: State, st: Step, id: Id)
    requires Inv(s) && Enabled(s, st)
    ensures id in Apply(s, st).rows ==> RowOk(Apply(s, st), id)
    ensures id !in Apply(s, st).rows ==> Wins(Apply(s, st), id) == 0
  {
    if id in s.rows { assert RowOk(s, id); }
    if st.ConsumeIt? { assert RunningOk(s, st.v); }
  }

  lemma OthersKeep(s: State, st: Step, v: nat)
    requires Inv(s) && Enabled(s, st) && v in s.running && Apply(s, st).running[v] == s.running[v]
    requires !(st.Look? || st.SpendOne? || st.Compare? || st.ConsumeIt?) || st.v != v
    ensures RunningOk(Apply(s, st), v)
  {
    if s.running[v].id in s.rows { RowGrows(s, st, s.running[v].id); }
    assert RunningOk(s, v);
    if st.Compare? { assert RunningOk(s, st.v); }
  }

  lemma OwnKeeps(s: State, st: Step)
    requires Inv(s) && Enabled(s, st) && (st.Look? || st.SpendOne? || st.Compare? || st.ConsumeIt?)
    ensures RunningOk(Apply(s, st), st.v)
  {
    assert RunningOk(s, st.v);
    if st.SpendOne? {
      var r := s.running[st.v];
      assert ComparedOk(s, r.id);
      assert forall n | n in Compared(s, r.id) :: n <= s.rows[r.id].attempts;
    }
  }

  lemma RunningKeeps(s: State, st: Step, v: nat)
    requires Inv(s) && Enabled(s, st) && v in Apply(s, st).running
    ensures RunningOk(Apply(s, st), v)
  {
    if (st.Look? || st.SpendOne? || st.Compare? || st.ConsumeIt?) && st.v == v {
      OwnKeeps(s, st);
    } else if v in s.running {
      OthersKeep(s, st, v);
    }
  }

  lemma OwnAttemptsKept(s: State, st: Step)
    requires Inv(s) && Enabled(s, st)
    ensures OwnAttempts(Apply(s, st))
  {
    if st.SpendOne? {
      var id := s.running[st.v].id;
      forall w | w in s.running && w != st.v && s.running[w].id == id && s.running[w].phase.Spent?
        ensures id in s.rows && s.running[w].phase.attempt <= s.rows[id].attempts
      {
        assert RunningOk(s, w);
      }
    }
  }

  lemma StepKeeps(s: State, st: Step)
    requires Inv(s) && Enabled(s, st)
    ensures Inv(Apply(s, st))
  {
    forall id ensures (id in Apply(s, st).rows ==> RowOk(Apply(s, st), id)) && (id !in Apply(s, st).rows ==> Wins(Apply(s, st), id) == 0) {
      RowKeeps(s, st, id);
    }
    forall v | v in Apply(s, st).running ensures RunningOk(Apply(s, st), v) {
      RunningKeeps(s, st, v);
    }
    forall id ensures ComparedOk(Apply(s, st), id) {
      ComparedKeeps(s, st, id);
    }
    OwnAttemptsKept(s, st);
  }

  predicate IsVerified(s: State, v: nat)
  {
    v in s.running && s.running[v].phase.Finished? && s.running[v].phase.verdict.Verified?
  }

  /** No two verifications of one challenge both succeeded. */
  ghost predicate OneWinner(s: State)
  {
    forall v, w | IsVerified(s, v) && IsVerified(s, w) && v != w :: s.running[v].id != s.running[w].id
  }

  /** A new success consumed its challenge, which no success had consumed before. */
  lemma NewWinner(s: State, st: Step, v: nat)
    requires Inv(s) && Enabled(s, st) && IsVerified(Apply(s, st), v)
    ensures v in s.running && s.running[v].id == Apply(s, st).running[v].id
    ensures IsVerified(s, v) || (st == ConsumeIt(v) && Consumable(s.rows, s.running[v].id))
    ensures IsVerified(s, v) ==> !Consumable(s.rows, s.running[v].id)
  {
    assert RunningOk(s, v);
  }

  lemma OneWinnerKept(s: State, st: Step)
    requires Inv(s) && OneWinner(s) && Enabled(s, st)
    ensures OneWinner(Apply(s, st))
  {
    var s' := Apply(s, st);
    forall v, w | IsVerified(s', v) && IsVerified(s', w) && v != w ensures s'.running[v].id != s'.running[w].id {
      NewWinner(s, st, v);
      NewWinner(s, st, w);
    }
  }

  lemma ComparedKeeps(s: State, st: Step, id: Id)
    requires Inv(s) && Enabled(s, st)
    ensures ComparedOk(Apply(s, st), id)
  {
    assert ComparedOk(s, id);
    var s' := Apply(s, st);
    if st.Compare? && s.running[st.v].id == id {
      assert RunningOk(s, st.v);
      assert Compared(s', id) == Compared(s, id) + [s.running[st.v].phase.attempt];
    } else {
      assert Compared(s', id) == Compared(s, id);
    }
  }

  // ---- whole runs --------------------------------------------------------------------------------------------

  ghost predicate IsRun(tr: seq<State>, steps: seq<Step>)
  {
    && |tr| == |steps| + 1
    && tr[0].rows == map[] && tr[0].running == map[] && tr[0].compared == map[] && tr[0].wins == map[]
    && forall i {:trigger Enabled(tr[i], steps[i])} | 0 <= i < |steps| :: Enabled(tr[i], steps[i]) && tr[i + 1] == Apply(tr[i], steps[i])
  }

  lemma {:induction false} Reachable(tr: seq<State>, steps: seq<Step>, i: nat)
    requires IsRun(tr, steps) && i < |tr|
    ensures Inv(tr[i])
  {
    if i > 0 {
      Reachable(tr, steps, i - 1);
      assert tr[i - 1 + 1] == Apply(tr[i - 1], steps[i - 1]);
      StepKeeps(tr[i - 1], steps[i - 1]);
    }
  }

  lemma NoneOfNone(s: seq<nat>)
    requires forall n | n in s :: 0 < n <= 0
    ensures s == []
  {
    if s != [] { HeadIsIn(s); }
  }

  lemma HeadIsIn(s: seq<nat>)
    requires s != []
    ensures s[0] in s
  {
  }

  lemma {:induction false} DistinctInRange(s: seq<nat>, most: nat)
    requires forall i, j | 0 <= i < j < |s| :: s[i] != s[j]
    requires forall n | n in s :: 0 < n <= most
    ensures |s| <= most
  {
    if most == 0 {
      NoneOfNone(s);
    } else if most in s {
      var i :| 0 <= i < |s| && s[i] == most;
      var t := s[..i] + s[i + 1..];
      forall n | n in t ensures 0 < n <= most - 1 {
        assert n in s;
      }
      DistinctInRange(t, most - 1);
    } else {
      DistinctInRange(s, most - 1);
    }
  }

  /** However many verifications run at once: at most maxAttempts comparisons, and at most one success. */
  lemma AttemptsBounded(tr: seq<State>, steps: seq<Step>, i: nat, id: Id)
    requires IsRun(tr, steps) && i < |tr| && id in tr[i].rows
    ensures |Compared(tr[i], id)| <= tr[i].rows[id].maxAttempts
    ensures Wins(tr[i], id) <= 1
  {
    Reachable(tr, steps, i);
    assert RowOk(tr[i], id) && ComparedOk(tr[i], id);
    DistinctInRange(Compared(tr[i], id), tr[i].rows[id].maxAttempts);
  }

  /** The step of this run that spent an attempt for `v`, on an unexpired, unconsumed challenge with attempts left. */
  ghost predicate SpentAt(tr: seq<State>, steps: seq<Step>, n: nat, v: nat)
    requires IsRun(tr, steps)
  {
    && n < |steps| && steps[n] == SpendOne(v) && v in tr[n].running && tr[n].running[v].id in tr[n].rows
    && var c := tr[n].rows[tr[n].running[v].id];
      tr[n].now < c.expiresAt && c.consumedAt.None? && c.attempts < c.maxAttempts
  }

  predicate PastSpend(p: Phase)
  {
    p.Spent? || p.Matched? || (p.Finished? && (p.verdict.Verified? || p.verdict.InvalidCode?))
  }

  /** One step of a run. */
  lemma StepOf(tr: seq<State>, steps: seq<Step>, i: nat)
    requires IsRun(tr, steps) && i < |steps|
    ensures Enabled(tr[i], steps[i]) && tr[i + 1] == Apply(tr[i], steps[i])
  {
  }

  lemma VerifiedOk(tr: seq<State>, steps: seq<Step>, i: nat, v: nat)
    requires IsRun(tr, steps) && i < |tr| && v in tr[i].running && PastSpend(tr[i].running[v].phase)
    ensures i > 0
    ensures var r := tr[i].running[v];
            r.phase.Finished? && r.phase.verdict.Verified? ==>
              && r.id in tr[i].rows && tr[i].rows[r.id].owner == r.owner && tr[i].rows[r.id].hash == CodeHash(r.code, r.owner)
  {
    Reachable(tr, steps, i);
    assert RunningOk(tr[i], v);
  }

  /** A success came from an attempt spent in time, and from the owner and code of the challenge. */
  lemma {:induction false} SuccessWasEarned(tr: seq<State>, steps: seq<Step>, i: nat, v: nat) returns (n: nat)
    requires IsRun(tr, steps) && i < |tr| && v in tr[i].running && PastSpend(tr[i].running[v].phase)
    ensures n < i && SpentAt(tr, steps, n, v)
    ensures tr[n].running[v].id == tr[i].running[v].id
    ensures var c := tr[n].rows[tr[i].running[v].id];
            tr[n].now < c.expiresAt && c.consumedAt.None? && c.attempts < c.maxAttempts
    ensures var r := tr[i].running[v];
            r.phase.Finished? && r.phase.verdict.Verified? ==>
              && r.id in tr[i].rows && tr[i].rows[r.id].owner == r.owner && tr[i].rows[r.id].hash == CodeHash(r.code, r.owner)
  {
    VerifiedOk(tr, steps, i, v);
    StepOf(tr, steps, i - 1);
    OnlySpendGetsThere(tr[i - 1], steps[i - 1], v);
    if steps[i - 1] == SpendOne(v) {
      n := i - 1;
    } else {
      n := SuccessWasEarned(tr, steps, i - 1, v);
    }
  }

  /** The verdicts of one verification, statement by statement. */
  lemma StepVerdicts(s: State, st: Step)
    requires Enabled(s, st)
    ensures st.Look? ==>
      var r := s.running[st.v];
      Apply(s, st).running[st.v].phase ==
        if r.id in s.rows && s.rows[r.id].owner == r.owner then Found(s.rows[r.id]) else Finished(CodeExpired)
    ensures st.SpendOne? ==>
      var r := s.running[st.v];
      var open := r.id in s.rows && s.rows[r.id].consumedAt.None? && s.now < s.rows[r.id].expiresAt && s.rows[r.id].attempts < s.rows[r.id].maxAttempts;
      Apply(s, st).running[st.v].phase ==
        if open then Spent(r.phase.row, s.rows[r.id].attempts + 1)
        else if r.phase.row.attempts >= r.phase.row.maxAttempts then Finished(TooManyAttempts) else Finished(CodeExpired)
    ensures st.Compare? ==>
      var r := s.running[st.v];
      Apply(s, st).running[st.v].phase ==
        if CodeHash(r.code, r.owner) == r.phase.row.hash then Matched(r.phase.row)
        else if r.phase.attempt < r.phase.row.maxAttempts then Finished(InvalidCode(r.phase.row.maxAttempts - r.phase.attempt))
        else Finished(TooManyAttempts)
    ensures st.ConsumeIt? ==>
      var r := s.running[st.v];
      Apply(s, st).running[st.v].phase ==
        if r.id in s.rows && s.rows[r.id].consumedAt.None? then Finished(Verified(r.phase.row.channel)) else Finished(CodeExpired)
  {
  }

  /** The step that issued a challenge: its code, its limit and its lifetime stay what they were. */
  lemma {:induction false} IssuedAt(tr: seq<State>, steps: seq<Step>, i: nat, id: Id) returns (m: nat)
    requires IsRun(tr, steps) && i < |tr| && id in tr[i].rows
    ensures m < i && steps[m].Issue? && steps[m].id == id && IsIssued(tr[i].rows[id], steps[m], tr[m].now)
  {
    StepOf(tr, steps, i - 1);
    if id in tr[i - 1].rows {
      RowGrows(tr[i - 1], steps[i - 1], id);
      m := IssuedAt(tr, steps, i - 1, id);
    } else {
      m := i - 1;
    }
  }

  predicate IsIssued(c: Challenge, st: Step, at: int)
    requires st.Issue?
  {
    && c.owner == st.owner && c.channel == st.channel && c.hash == CodeHash(st.code, st.owner)
    && c.maxAttempts == st.maxAttempts && c.expiresAt == at + 1000 * st.ttl
  }

  /**
   * A success submitted the very code that was issued to its owner, less than the lifetime of the code
   * after it was issued.
   */
  lemma SuccessHadTheCode(tr: seq<State>, steps: seq<Step>, i: nat, v: nat) returns (m: nat, n: nat)
    requires IsRun(tr, steps) && i < |tr| && IsVerified(tr[i], v)
    ensures m < n < i && steps[m].Issue? && steps[n] == SpendOne(v)
    ensures steps[m].id == tr[i].running[v].id && steps[m].owner == tr[i].running[v].owner && steps[m].code == tr[i].running[v].code
    ensures SpentAt(tr, steps, n, v) && tr[n].now < tr[m].now + 1000 * steps[m].ttl
    ensures var r := tr[i].running[v];
            r.id in tr[i].rows && tr[i].rows[r.id].owner == r.owner && tr[i].rows[r.id].hash == CodeHash(r.code, r.owner)
  {
    n := SuccessWasEarned(tr, steps, i, v);
    var id := tr[i].running[v].id;
    m := IssuedAt(tr, steps, n, id);
    RowsKept(tr, steps, n, i, id);
    SameCode(steps[m].code, tr[i].running[v].code, steps[m].owner);
  }

  lemma {:induction false} RowsKept(tr: seq<State>, steps: seq<Step>, n: nat, i: nat, id: Id)
    requires IsRun(tr, steps) && n <= i < |tr| && id in tr[n].rows
    ensures id in tr[i].rows && SameChallenge(tr[n].rows[id], tr[i].rows[id])
    decreases i
  {
    if n < i {
      RowsKept(tr, steps, n, i - 1, id);
      StepOf(tr, steps, i - 1);
      RowGrows(tr[i - 1], steps[i - 1], id);
    }
  }

  lemma OnlySpendGetsThere(s: State, st: Step, v: nat)
    requires Enabled(s, st) && v in Apply(s, st).running && PastSpend(Apply(s, st).running[v].phase)
    ensures v in s.running && s.running[v].id == Apply(s, st).running[v].id
    ensures if st == SpendOne(v) then s.running[v].id in s.rows && Spendable(s.rows[s.running[v].id], s.now)
            else PastSpend(s.running[v].phase)
  {
  }
}
