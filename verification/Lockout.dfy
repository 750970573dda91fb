/**
 * Password login and the account lockout: what `verifyPassword` records, how many wrong passwords an
 * account can collect, and what the reported waiting time is worth. Calls for one account are taken
 * one at a time; each reads the clock once for the lockout and once when its attempt is written.
 */
module Lockout {
  import opened Common

  /** Times are microseconds, the resolution of the timestamps in the log. */
  const SECOND := 1000000

  datatype Kind = Login | SecondFactor

  datatype Reason =
    | MalformedItsId | AccountNotFound | NoPassword | TemporarilyLocked | WrongPassword
    | AccountUnavailable | NotEligible

  /** A row of auth_login_attempts; old rows have no kind and count as logins. */
  datatype Attempt = Attempt(itsId: Option<nat>, kind: Option<Kind>, success: bool, reason: Option<Reason>, at: int)

  type Log = seq<Attempt>

  /** LOGIN_MAX_FAILURES_PER_ACCOUNT and LOGIN_ACCOUNT_LOCK_SECONDS, both at least 1. */
  datatype Config = Config(maxFailures: nat, lock: nat, eligibilityCheck: bool)
  {
    predicate Valid() { maxFailures >= 1 && lock >= 1 }
  }

  // ---- recentFailures -------------------------------------------------------------------------------

  predicate IsOf(a: Attempt, id: nat, kind: Kind)
  {
    a.itsId == Some(id) && a.kind.GetOr(Login) == kind
  }

  predicate IsWrong(a: Attempt, id: nat)
  {
    IsOf(a, id, Login) && !a.success && a.reason == Some(WrongPassword)
  }

  predicate IsSuccess(a: Attempt, id: nat)
  {
    IsOf(a, id, Login) && a.success
  }

  /** The latest success of the account, if any. */
  function LastOk(log: Log, id: nat): (r: Option<int>)
    ensures r.Some? ==> exists i :: 0 <= i < |log| && IsSuccess(log[i], id) && log[i].at == r.value
    ensures forall i :: 0 <= i < |log| && IsSuccess(log[i], id) ==> r.Some? && log[i].at <= r.value
  {
    if log == [] then None
    else
      var a, before := log[|log| - 1], LastOk(log[..|log| - 1], id);
      if IsSuccess(a, id) && (before.None? || before.value < a.at) then Some(a.at) else before
  }

  /** Wrong passwords later than `from`. */
  function CountAfter(log: Log, id: nat, from: int): nat
  {
    if log == [] then 0
    else CountAfter(log[..|log| - 1], id, from) + if IsWrong(log[|log| - 1], id) && log[|log| - 1].at > from then 1 else 0
  }

  /** The latest wrong password later than `from`. */
  function LatestAfter(log: Log, id: nat, from: int): (r: Option<int>)
    ensures r.Some? ==> r.value > from
    ensures forall i :: 0 <= i < |log| && IsWrong(log[i], id) && log[i].at > from ==> r.Some? && log[i].at <= r.value
    ensures r.Some? <==> CountAfter(log, id, from) > 0
  {
    if log == [] then None
    else
      var a, before := log[|log| - 1], LatestAfter(log[..|log| - 1], id, from);
      if IsWrong(a, id) && a.at > from && (before.None? || before.value < a.at) then Some(a.at) else before
  }

  /** Failures count when they are later than this: inside the window and after the last success. */
  function Floor(log: Log, id: nat, now: int, lock: nat): (f: int)
    ensures f >= now - lock * SECOND
  {
    var start, ok := now - lock * SECOND, LastOk(log, id);
    if ok.Some? && ok.value > start then ok.value else start
  }

  function Failures(log: Log, id: nat, now: int, lock: nat): nat
  {
    CountAfter(log, id, Floor(log, id, now, lock))
  }

  /** A span in microseconds cast to whole seconds: rounded to the nearest, halves up. */
  function Rounded(span: int): int
  {
    (span + SECOND / 2) / SECOND
  }

  function SecondsSinceLast(log: Log, id: nat, now: int, lock: nat): Option<int>
  {
    match LatestAfter(log, id, Floor(log, id, now, lock))
    case None => None
    case Some(at) => Some(Rounded(now - at))
  }

  /** 0, or the seconds the account stays locked as the service reports them. */
  function LockedFor(log: Log, id: nat, now: int, cfg: Config): nat
  {
    if Failures(log, id, now, cfg.lock) < cfg.maxFailures then 0
    else
      var wait := cfg.lock - SecondsSinceLast(log, id, now, cfg.lock).GetOr(0);
      if wait < 1 then 1 else wait
  }

  // ---- the same, without loops ----------------------------------------------------------------------

  /**
   * The rows that count as failures: wrong passwords of logins of this account, written less than the
   * lock ago and after every success of the account.
   */
  ghost function WrongRows(log: Log, id: nat, now: int, lock: nat): set<nat>
  {
    set i: nat | 0 <= i < |log|
      && log[i].itsId == Some(id) && log[i].kind in {None, Some(Login)} && !log[i].success && log[i].reason == Some(WrongPassword)
      && log[i].at > now - 1000000 * lock
      && (forall j | 0 <= j < |log| && log[j].itsId == Some(id) && log[j].kind in {None, Some(Login)} && log[j].success ::
            log[j].at < log[i].at)
  }

  ghost function WrongAfter(log: Log, id: nat, from: int): set<nat>
  {
    set i: nat | 0 <= i < |log| && IsWrong(log[i], id) && log[i].at > from
  }

  lemma {:induction false} CountIsSize(log: Log, id: nat, from: int)
    ensures CountAfter(log, id, from) == |WrongAfter(log, id, from)|
  {
    if log == [] {
      assert WrongAfter(log, id, from) == {};
    } else {
      var n := |log| - 1;
      CountIsSize(log[..n], id, from);
      if IsWrong(log[n], id) && log[n].at > from {
        assert WrongAfter(log, id, from) == WrongAfter(log[..n], id, from) + {n};
      } else {
        assert WrongAfter(log, id, from) == WrongAfter(log[..n], id, from);
      }
    }
  }

  /** Later than the floor is inside the window and after every success. */
  lemma AboveFloor(log: Log, id: nat, now: int, lock: nat, at: int)
    ensures at > Floor(log, id, now, lock) <==>
      && at > now - 1000000 * lock
      && forall j | 0 <= j < |log| && log[j].itsId == Some(id) && log[j].kind in {None, Some(Login)} && log[j].success :: log[j].at < at
  {
    forall j | 0 <= j < |log| ensures IsSuccess(log[j], id) <==> log[j].itsId == Some(id) && log[j].kind in {None, Some(Login)} && log[j].success {
    }
  }

  lemma FailuresAreRows(log: Log, id: nat, now: int, lock: nat)
    ensures WrongAfter(log, id, Floor(log, id, now, lock)) == WrongRows(log, id, now, lock)
    ensures Failures(log, id, now, lock) == |WrongRows(log, id, now, lock)|
  {
    var from := Floor(log, id, now, lock);
    forall i | 0 <= i < |log| ensures i in WrongAfter(log, id, from) <==> i in WrongRows(log, id, now, lock) {
      AboveFloor(log, id, now, lock, log[i].at);
    }
    CountIsSize(log, id, from);
  }

  /** The seconds since the latest of these rows, rounded to the nearest, halves up. */
  lemma SinceLatest(log: Log, id: nat, now: int, lock: nat, i: nat)
    requires i in WrongRows(log, id, now, lock) && forall j | j in WrongRows(log, id, now, lock) :: log[j].at <= log[i].at
    ensures SecondsSinceLast(log, id, now, lock) == Some((now - log[i].at + 500000) / 1000000)
  {
    var from := Floor(log, id, now, lock);
    FailuresAreRows(log, id, now, lock);
    LatestOfRows(log, id, from, i);
  }

  lemma LatestOfRows(log: Log, id: nat, from: int, i: nat)
    requires i in WrongAfter(log, id, from) && forall j | j in WrongAfter(log, id, from) :: log[j].at <= log[i].at
    ensures LatestAfter(log, id, from) == Some(log[i].at)
  {
    LatestIsRow(log, id, from);
    var k :| k in WrongAfter(log, id, from) && LatestAfter(log, id, from) == Some(log[k].at);
  }

  lemma {:induction false} LatestIsRow(log: Log, id: nat, from: int)
    ensures LatestAfter(log, id, from).Some? ==> exists k :: k in WrongAfter(log, id, from) && LatestAfter(log, id, from) == Some(log[k].at)
  {
    if log != [] {
      var n := |log| - 1;
      LatestIsRow(log[..n], id, from);
      if LatestAfter(log, id, from).Some? {
        if LatestAfter(log, id, from) == LatestAfter(log[..n], id, from) {
          var k :| k in WrongAfter(log[..n], id, from) && LatestAfter(log[..n], id, from) == Some(log[..n][k].at);
          assert k in WrongAfter(log, id, from) && log[k] == log[..n][k];
        } else {
          assert n in WrongAfter(log, id, from);
        }
      }
    }
  }

  /**
   * The account is locked exactly while that many rows count; the time it reports is the lock less the
   * seconds since the latest of them, and at least one second.
   */
  lemma LockIsLiteral(log: Log, id: nat, now: int, cfg: Config, i: nat)
    ensures LockedFor(log, id, now, cfg) > 0 <==> |WrongRows(log, id, now, cfg.lock)| >= cfg.maxFailures
    ensures LockedFor(log, id, now, cfg) > 0 && i in WrongRows(log, id, now, cfg.lock)
            && (forall j | j in WrongRows(log, id, now, cfg.lock) :: log[j].at <= log[i].at) ==>
              var wait := cfg.lock - (now - log[i].at + 500000) / 1000000;
              LockedFor(log, id, now, cfg) == if wait < 1 then 1 else wait
  {
    FailuresAreRows(log, id, now, cfg.lock);
    if i in WrongRows(log, id, now, cfg.lock) && forall j | j in WrongRows(log, id, now, cfg.lock) :: log[j].at <= log[i].at {
      SinceLatest(log, id, now, cfg.lock, i);
    }
  }

  lemma Prefix(log: Log, i: nat)
    requires i < |log|
    ensures |log[..i + 1]| == i + 1 && log[..i + 1][..i] == log[..i] && log[..i + 1][i] == log[i]
  {
  }

  // ---- verifyPassword -------------------------------------------------------------------------------

  /** `password` is None for an empty column; `plaintext` is what decryption gives, empty when it fails. */
  datatype Account = Account(password: Option<string>, plaintext: string, allowLogin: bool, eligible: bool)

  datatype Verdict = Welcome | InvalidCredentials | AccountLocked(retryAfter: nat) | Unavailable | Ineligible

  /** The account's password was given, non-empty. */
  predicate Matches(account: Account, password: string)
  {
    account.plaintext != "" && account.plaintext == password
  }

  class CredentialService {
    const cfg: Config
    var log: Log

    constructor (cfg: Config)
      ensures this.cfg == cfg && log == []
    {
      this.cfg, log := cfg, [];
    }

    /** A failed write is logged elsewhere and otherwise ignored. */
    method Record(id: Option<nat>, success: bool, reason: Option<Reason>, at: int, stored: bool)
      modifies this
      ensures log == if stored then old(log) + [Attempt(id, Some(Login), success, reason, at)] else old(log)
    {
      if stored { log := log + [Attempt(id, Some(Login), success, reason, at)]; }
    }

    /** `max(created_at)` of the successes, the first part of the query. */
    method LastSuccess(id: nat) returns (lastOk: Option<int>)
      ensures lastOk == LastOk(log, id)
    {
      lastOk := None;
      for i := 0 to |log|
        invariant lastOk == LastOk(log[..i], id)
      {
        Prefix(log, i);
        if IsSuccess(log[i], id) && (lastOk.None? || lastOk.value < log[i].at) { lastOk := Some(log[i].at); }
      }
      assert log[..|log|] == log;
    }

    /** `count(*)` and `max(created_at)` of the wrong passwords, its second part. */
    method CountWrong(id: nat, from: int) returns (failures: nat, latest: Option<int>)
      ensures failures == CountAfter(log, id, from) && latest == LatestAfter(log, id, from)
    {
      failures, latest := 0, None;
      for i := 0 to |log|
        invariant failures == CountAfter(log[..i], id, from) && latest == LatestAfter(log[..i], id, from)
      {
        Prefix(log, i);
        if IsWrong(log[i], id) && log[i].at > from {
          failures := failures + 1;
          if latest.None? || latest.value < log[i].at { latest := Some(log[i].at); }
        }
      }
      assert log[..|log|] == log;
    }

    method RecentFailures(id: nat, now: int) returns (failures: nat, secondsSinceLast: Option<int>)
      ensures failures == Failures(log, id, now, cfg.lock) == |WrongRows(log, id, now, cfg.lock)|
      ensures secondsSinceLast == SecondsSinceLast(log, id, now, cfg.lock)
    {
      FailuresAreRows(log, id, now, cfg.lock);
      var start := now - cfg.lock * SECOND;
      var lastOk := LastSuccess(id);
      var latest: Option<int>;
      failures, latest := CountWrong(id, if lastOk.Some? && lastOk.value > start then lastOk.value else start);
      secondsSinceLast := if latest.None? then None else Some(Rounded(now - latest.value));
    }

    /** `id` is None when the identifier is not an ITS ID, `account` None when no active account has it. */
    method VerifyPassword(id: Option<nat>, account: Option<Account>, password: string, now: int, at: int, stored: bool)
      returns (v: Verdict)
      modifies this
      ensures v.Welcome? <==>
                && id.Some? && account.Some? && account.value.password.Some? && LockedFor(old(log), id.value, now, cfg) == 0
                && Matches(account.value, password) && account.value.allowLogin && (cfg.eligibilityCheck ==> account.value.eligible)
      ensures v.AccountLocked? <==>
                && id.Some? && account.Some? && account.value.password.Some? && LockedFor(old(log), id.value, now, cfg) > 0
      ensures v.AccountLocked? ==> v.retryAfter == LockedFor(old(log), id.value, now, cfg)
      ensures v.Unavailable? || v.Ineligible? ==> account.Some? && account.value.plaintext == password != ""
      ensures v.AccountLocked? <==>
                && id.Some? && account.Some? && account.value.password.Some?
                && |WrongRows(old(log), id.value, now, cfg.lock)| >= cfg.maxFailures
      ensures v.Welcome? <==>
                && id.Some? && account.Some? && account.value.password.Some?
                && |WrongRows(old(log), id.value, now, cfg.lock)| < cfg.maxFailures
                && password != "" && account.value.plaintext == password
                && account.value.allowLogin && (cfg.eligibilityCheck ==> account.value.eligible)
      ensures id.Some? && account.Some? && account.value.password.Some? && !v.AccountLocked? ==>
                && (account.value.plaintext == "" || account.value.plaintext != password ==>
                      && v.InvalidCredentials?
                      && (stored ==> log == old(log) + [Attempt(id, Some(Login), false, Some(WrongPassword), at)]))
                && (account.value.plaintext == password != "" && !account.value.allowLogin ==> v.Unavailable?)
                && (account.value.plaintext == password != "" && account.value.allowLogin ==>
                      (v.Ineligible? <==> cfg.eligibilityCheck && !account.value.eligible))
      ensures v.Welcome? && stored ==> log == old(log) + [Attempt(id, Some(Login), true, None, at)]
      ensures v.AccountLocked? && stored ==> log == old(log) + [Attempt(id, Some(Login), false, Some(TemporarilyLocked), at)]
      ensures log == if stored then old(log) + [Outcome(old(log), cfg, id, account, password, now, at)] else old(log)
    {
      if id.None? {
        Record(None, false, Some(MalformedItsId), at, stored);
        return InvalidCredentials;
      }
      if account.None? || account.value.password.None? {
        Record(id, false, Some(if account.Some? then NoPassword else AccountNotFound), at, stored);
        return InvalidCredentials;
      }
      var failures, since := RecentFailures(id.value, now);
      LockIsLiteral(log, id.value, now, cfg, 0);
      if failures >= cfg.maxFailures {
        var wait := cfg.lock - since.GetOr(0);
        Record(id, false, Some(TemporarilyLocked), at, stored);
        return AccountLocked(if wait < 1 then 1 else wait);
      }
      if account.value.plaintext == "" || account.value.plaintext != password {
        Record(id, false, Some(WrongPassword), at, stored);
        return InvalidCredentials;
      }
      if !account.value.allowLogin {
        Record(id, false, Some(AccountUnavailable), at, stored);
        return Unavailable;
      }
      if cfg.eligibilityCheck && !account.value.eligible {
        Record(id, false, Some(NotEligible), at, stored);
        return Ineligible;
      }
      Record(id, true, None, at, stored);
      return Welcome;
    }
  }

  /** The attempt one call of `verifyPassword` writes. */
  function Outcome(log: Log, cfg: Config, id: Option<nat>, account: Option<Account>, password: string, now: int, at: int): (a: Attempt)
    ensures a.at == at && a.kind == Some(Login) && a.itsId == id
    ensures a.success <==> a.reason.None?
    ensures a.reason == Some(WrongPassword) ==> id.Some? && LockedFor(log, id.value, now, cfg) == 0
  {
    var failed := (r: Reason) => Attempt(id, Some(Login), false, Some(r), at);
    if id.None? then failed(MalformedItsId)
    else if account.None? then failed(AccountNotFound)
    else if account.value.password.None? then failed(NoPassword)
    else if LockedFor(log, id.value, now, cfg) > 0 then failed(TemporarilyLocked)
    else if !Matches(account.value, password) then failed(WrongPassword)
    else if !account.value.allowLogin then failed(AccountUnavailable)
    else if cfg.eligibilityCheck && !account.value.eligible then failed(NotEligible)
    else Attempt(id, Some(Login), true, None, at)
  }

  // ---- how many wrong passwords a span can hold -----------------------------------------------------

  /** One call of `verifyPassword`, or a second-factor attempt written to the same table. */
  datatype Call =
    | Password(id: Option<nat>, account: Option<Account>, password: string, now: int, at: int, stored: bool)
    | Other(a: Attempt)

  function AfterCall(log: Log, c: Call, cfg: Config): Log
  {
    match c
    case Password(id, account, password, now, at, stored) =>
      if stored then log + [Outcome(log, cfg, id, account, password, now, at)] else log
    case Other(a) => log + [a]
  }

  function LogAfter(calls: seq<Call>, cfg: Config): Log
  {
    if calls == [] then [] else AfterCall(LogAfter(calls[..|calls| - 1], cfg), calls[|calls| - 1], cfg)
  }

  function CallTime(c: Call): int
  {
    if c.Password? then c.at else c.a.at
  }

  /** Calls one after another: the lockout is read before the attempt is written, and the clock never goes back. */
  ghost predicate InOrder(calls: seq<Call>)
  {
    && (forall i :: 0 <= i < |calls| ==> calls[i].Password? ==> calls[i].now <= calls[i].at)
    && (forall i :: 0 <= i < |calls| ==> calls[i].Other? ==> calls[i].a.kind == Some(SecondFactor))
    && (forall i, j :: 0 <= i < j < |calls| ==> CallTime(calls[i]) <= CallTime(calls[j]))
  }

  predicate InSpan(at: int, start: int, lock: nat)
  {
    start <= at < start + lock * SECOND
  }

  /** Wrong passwords of the account written in the span of `lock` seconds that begins at `start`. */
  function WrongInSpan(log: Log, id: nat, start: int, lock: nat): nat
  {
    if log == [] then 0
    else WrongInSpan(log[..|log| - 1], id, start, lock)
         + if IsWrong(log[|log| - 1], id) && InSpan(log[|log| - 1].at, start, lock) then 1 else 0
  }

  ghost predicate NoSuccessIn(log: Log, id: nat, start: int, lock: nat)
  {
    forall i :: 0 <= i < |log| && InSpan(log[i].at, start, lock) ==> !IsSuccess(log[i], id)
  }

  /** Everything in the span is later than the floor, so it is counted. */
  lemma {:induction false} SpanIsCounted(log: Log, id: nat, start: int, lock: nat, from: int)
    requires from < start
    ensures WrongInSpan(log, id, start, lock) <= CountAfter(log, id, from)
  {
    if log != [] { SpanIsCounted(log[..|log| - 1], id, start, lock, from); }
  }

  /** Every time in the log is the time of a call. */
  ghost predicate TimesFrom(log: Log, calls: seq<Call>)
  {
    forall i :: 0 <= i < |log| ==> exists k :: 0 <= k < |calls| && log[i].at == CallTime(calls[k])
  }

  lemma {:induction false} LogTimes(calls: seq<Call>, cfg: Config)
    ensures TimesFrom(LogAfter(calls, cfg), calls)
  {
    if calls != [] {
      var before, c := calls[..|calls| - 1], calls[|calls| - 1];
      LogTimes(before, cfg);
      var log, log' := LogAfter(before, cfg), LogAfter(calls, cfg);
      forall i | 0 <= i < |log'| ensures exists k :: 0 <= k < |calls| && log'[i].at == CallTime(calls[k]) {
        if i < |log| {
          var k :| 0 <= k < |before| && log[i].at == CallTime(before[k]);
          assert calls[k] == before[k] && log'[i] == log[i];
        } else {
          assert log'[i].at == CallTime(calls[|calls| - 1]);
        }
      }
    }
  }

  /** The lockout was open when a wrong password was written, so fewer than the limit precede it in the span. */
  lemma {:induction false} RoomForOne(log: Log, id: nat, now: int, at: int, start: int, cfg: Config)
    requires LockedFor(log, id, now, cfg) == 0
    requires now <= at && InSpan(at, start, cfg.lock)
    requires NoSuccessIn(log, id, start, cfg.lock) && forall i :: 0 <= i < |log| ==> log[i].at <= at
    ensures WrongInSpan(log, id, start, cfg.lock) < cfg.maxFailures
  {
    var from := Floor(log, id, now, cfg.lock);
    assert from < start;
    SpanIsCounted(log, id, start, cfg.lock, from);
  }

  /** One more call keeps the bound. */
  lemma {:induction false} CallKeepsBound(log: Log, c: Call, cfg: Config, id: nat, start: int)
    requires c.Password? ==> c.now <= c.at
    requires c.Other? ==> c.a.kind == Some(SecondFactor)
    requires NoSuccessIn(log, id, start, cfg.lock) && forall i :: 0 <= i < |log| ==> log[i].at <= CallTime(c)
    requires WrongInSpan(log, id, start, cfg.lock) <= cfg.maxFailures
    ensures WrongInSpan(AfterCall(log, c, cfg), id, start, cfg.lock) <= cfg.maxFailures
  {
    var log' := AfterCall(log, c, cfg);
    if |log'| > |log| {
      var a := log'[|log|];
      assert log'[..|log|] == log;
      if IsWrong(a, id) && InSpan(a.at, start, cfg.lock) {
        RoomForOne(log, id, c.now, c.at, start, cfg);
      }
    }
  }

  lemma {:induction false} NotLater(calls: seq<Call>, cfg: Config)
    requires calls != [] && InOrder(calls)
    ensures var log := LogAfter(calls[..|calls| - 1], cfg);
      forall i :: 0 <= i < |log| ==> log[i].at <= CallTime(calls[|calls| - 1])
  {
    var before := calls[..|calls| - 1];
    var log := LogAfter(before, cfg);
    LogTimes(before, cfg);
    forall i | 0 <= i < |log| ensures log[i].at <= CallTime(calls[|calls| - 1]) {
      var k :| 0 <= k < |before| && log[i].at == CallTime(before[k]);
      assert CallTime(calls[k]) <= CallTime(calls[|calls| - 1]);
    }
  }

  /**
   * In any span of LOGIN_ACCOUNT_LOCK_SECONDS without a success, an account collects at most
   * LOGIN_MAX_FAILURES_PER_ACCOUNT wrong passwords, whatever else is written.
   */
  lemma {:induction false} WrongPasswordsBounded(calls: seq<Call>, cfg: Config, id: nat, start: int)
    requires cfg.Valid() && InOrder(calls)
    requires NoSuccessIn(LogAfter(calls, cfg), id, start, cfg.lock)
    ensures WrongInSpan(LogAfter(calls, cfg), id, start, cfg.lock) <= cfg.maxFailures
  {
    if calls != [] {
      var before, c := calls[..|calls| - 1], calls[|calls| - 1];
      var log := LogAfter(before, cfg);
      assert LogAfter(calls, cfg) == AfterCall(log, c, cfg);
      EarlierSuccess(log, c, cfg, id, start);
      WrongPasswordsBounded(before, cfg, id, start);
      NotLater(calls, cfg);
      CallKeepsBound(log, c, cfg, id, start);
    }
  }

  /** The wrong passwords of the account in the span. */
  ghost function WrongRowsIn(log: Log, id: nat, start: int, lock: nat): set<nat>
  {
    set i: nat | 0 <= i < |log|
      && log[i].itsId == Some(id) && log[i].kind in {None, Some(Login)} && !log[i].success && log[i].reason == Some(WrongPassword)
      && start <= log[i].at < start + 1000000 * lock
  }

  lemma {:induction false} SpanIsRows(log: Log, id: nat, start: int, lock: nat)
    ensures WrongInSpan(log, id, start, lock) == |WrongRowsIn(log, id, start, lock)|
  {
    if log == [] {
      assert WrongRowsIn(log, id, start, lock) == {};
    } else {
      var n := |log| - 1;
      SpanIsRows(log[..n], id, start, lock);
      if IsWrong(log[n], id) && InSpan(log[n].at, start, lock) {
        assert WrongRowsIn(log, id, start, lock) == WrongRowsIn(log[..n], id, start, lock) + {n};
      } else {
        assert WrongRowsIn(log, id, start, lock) == WrongRowsIn(log[..n], id, start, lock);
      }
    }
  }

  /** The bound on the rows themselves: however the calls went, no span without a success holds more. */
  lemma {:induction false} WrongRowsBounded(calls: seq<Call>, cfg: Config, id: nat, start: int)
    requires cfg.Valid() && InOrder(calls)
    requires forall i | 0 <= i < |LogAfter(calls, cfg)| ::
      var a := LogAfter(calls, cfg)[i];
      a.itsId == Some(id) && a.kind in {None, Some(Login)} && start <= a.at < start + 1000000 * cfg.lock ==> !a.success
    ensures |WrongRowsIn(LogAfter(calls, cfg), id, start, cfg.lock)| <= cfg.maxFailures
  {
    assert NoSuccessIn(LogAfter(calls, cfg), id, start, cfg.lock);
    WrongPasswordsBounded(calls, cfg, id, start);
    SpanIsRows(LogAfter(calls, cfg), id, start, cfg.lock);
  }

  lemma {:induction false} EarlierSuccess(log: Log, c: Call, cfg: Config, id: nat, start: int)
    requires NoSuccessIn(AfterCall(log, c, cfg), id, start, cfg.lock)
    ensures NoSuccessIn(log, id, start, cfg.lock)
  {
    assert forall i :: 0 <= i < |log| ==> log[i] == AfterCall(log, c, cfg)[i];
  }

  // ---- what the reported waiting time is worth ------------------------------------------------------

  lemma {:induction false} CountMonotone(log: Log, id: nat, from: int, later: int)
    requires from <= later
    ensures CountAfter(log, id, later) <= CountAfter(log, id, from)
  {
    if log != [] { CountMonotone(log[..|log| - 1], id, from, later); }
  }

  lemma {:induction false} NoneAfterLatest(log: Log, id: nat, from: int, late: int)
    requires forall i :: 0 <= i < |log| && IsWrong(log[i], id) && log[i].at > from ==> log[i].at <= late
    requires from <= late
    ensures CountAfter(log, id, late) == 0
  {
    if log != [] {
      assert forall i :: 0 <= i < |log| - 1 ==> log[..|log| - 1][i] == log[i];
      NoneAfterLatest(log[..|log| - 1], id, from, late);
    }
  }

  /** Counting from the floor and from a later moment in the window. */
  lemma {:induction false} FloorMoves(log: Log, id: nat, now: int, later: int, lock: nat)
    requires now <= later && later - lock * SECOND >= Floor(log, id, now, lock)
    ensures Floor(log, id, later, lock) == later - lock * SECOND
  {
  }

  /** The whole seconds that had passed since the last wrong password, and the exact span. */
  function Elapsed(log: Log, id: nat, now: int, lock: nat): int
    requires Failures(log, id, now, lock) > 0
  {
    now - LatestAfter(log, id, Floor(log, id, now, lock)).value
  }

  /** The span was not rounded up, or it was rounded up to the whole lock time. */
  predicate RoundedFairly(log: Log, id: nat, now: int, lock: nat)
    requires Failures(log, id, now, lock) > 0
  {
    var e := Elapsed(log, id, now, lock);
    Rounded(e) * SECOND <= e || Rounded(e) >= lock
  }

  /**
   * Waiting exactly the reported time, with nothing written meanwhile: the account is open again
   * exactly when the elapsed time was not rounded up, or fewer than the limit of wrong passwords are
   * younger than what it was rounded up to. Otherwise it is still locked.
   */
  lemma {:induction false} UnlockedIff(log: Log, id: nat, now: int, cfg: Config)
    requires cfg.Valid() && LockedFor(log, id, now, cfg) > 0
    requires forall i :: 0 <= i < |log| ==> log[i].at <= now
    ensures Failures(log, id, now, cfg.lock) > 0
    ensures var q := Rounded(Elapsed(log, id, now, cfg.lock));
      LockedFor(log, id, now + LockedFor(log, id, now, cfg) * SECOND, cfg) == 0
      <==> RoundedFairly(log, id, now, cfg.lock) || CountAfter(log, id, Max(now - q * SECOND, Floor(log, id, now, cfg.lock))) < cfg.maxFailures
  {
    var from := Floor(log, id, now, cfg.lock);
    var last := LatestAfter(log, id, from).value;
    var q := Rounded(now - last);
    var wait := LockedFor(log, id, now, cfg);
    var later := now + wait * SECOND;
    if RoundedFairly(log, id, now, cfg.lock) {
      assert later - cfg.lock * SECOND >= last;
      FloorMoves(log, id, now, later, cfg.lock);
      NoneAfterLatest(log, id, from, later - cfg.lock * SECOND);
    } else {
      assert wait == cfg.lock - q;
      assert later - cfg.lock * SECOND == now - q * SECOND;
      FloorIs(log, id, now, later, cfg.lock);
    }
  }

  function Max(a: int, b: int): int
  {
    if a < b then b else a
  }

  lemma {:induction false} FloorIs(log: Log, id: nat, now: int, later: int, lock: nat)
    requires now <= later
    ensures Floor(log, id, later, lock) == Max(later - lock * SECOND, Floor(log, id, now, lock))
  {
  }

  lemma {:induction false} TailIgnored(log: Log, tail: Log, id: nat, from: int)
    requires forall i :: 0 <= i < |tail| ==> !IsWrong(tail[i], id)
    ensures CountAfter(log + tail, id, from) == CountAfter(log, id, from)
    decreases |tail|
  {
    if tail == [] {
      assert log + tail == log;
    } else {
      TailIgnored(log, tail[..|tail| - 1], id, from);
      assert (log + tail)[..|log + tail| - 1] == log + tail[..|tail| - 1];
    }
  }

  /**
   * One second more than reported always suffices, whatever else was written meanwhile as long as it
   * was no wrong password of this account.
   */
  lemma {:induction false} OneMoreSecondUnlocks(log: Log, tail: Log, id: nat, now: int, later: int, cfg: Config)
    requires cfg.Valid() && LockedFor(log, id, now, cfg) > 0
    requires forall i :: 0 <= i < |log| ==> log[i].at <= now
    requires forall i :: 0 <= i < |tail| ==> !IsWrong(tail[i], id)
    requires later >= now + (LockedFor(log, id, now, cfg) + 1) * SECOND
    ensures LockedFor(log + tail, id, later, cfg) == 0
  {
    var from := Floor(log, id, now, cfg.lock);
    var last := LatestAfter(log, id, from).value;
    assert later - cfg.lock * SECOND >= last;
    NoneAfterLatest(log, id, from, later - cfg.lock * SECOND);
    CountMonotone(log, id, later - cfg.lock * SECOND, Floor(log + tail, id, later, cfg.lock));
    TailIgnored(log, tail, id, Floor(log + tail, id, later, cfg.lock));
  }

  /** One wrong password, 0.6 seconds ago: the reported 899 seconds later the account is still locked. */
  lemma {:induction false} RoundingUpFallsShort()
    ensures var log, cfg := [Attempt(Some(7), Some(Login), false, Some(WrongPassword), 0)], Config(1, 900, true);
      var now := 600000;
      && LockedFor(log, 7, now, cfg) == 899
      && LockedFor(log, 7, now + 899 * SECOND, cfg) > 0
  {
  }
}
