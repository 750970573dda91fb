/**
 * HOTP and TOTP codes, and the one-time acceptance of TOTP steps. HMAC-SHA1 is a parameter: any
 * function of secret and counter with 20-byte results.
 */
module Totp {
  import opened Common
  import opened Numerals
  import opened Bits32
  import opened Base32

  const MILLION: nat := 1_000_000

  type Hmac = (seq<Byte>, nat) -> seq<Byte>

  ghost predicate IsSha1(hmac: Hmac)
  {
    forall secret, counter :: |hmac(secret, counter)| == 20
  }

  // ---- HOTP ------------------------------------------------------------------------------------------

  /** The dynamic truncation of section 5.3 of RFC 4226: four bytes at the offset, the top bit dropped. */
  function Truncated(mac: seq<Byte>): nat
    requires |mac| == 20
  {
    var o := mac[19] % 16;
    BigEndian31(mac[o], mac[o + 1], mac[o + 2], mac[o + 3])
  }

  function BigEndian31(a: nat, b: nat, c: nat, d: nat): nat
  {
    (a % 128) * 16777216 + b * 65536 + c * 256 + d
  }

  function PadStart(s: string, n: nat): string
    decreases n - |s|
  {
    if |s| >= n then s else PadStart("0" + s, n)
  }

  /** The bitwise expression of `hotp`, and its decimal rendering. */
  function Hotp(mac: seq<Byte>): string
    requires |mac| == 20
  {
    PadStart(Decimal(Binary(mac) % MILLION), 6)
  }

  function Binary(mac: seq<Byte>): nat
    requires |mac| == 20
  {
    var o := mac[19] % 16;   // mac[19] & 0x0f
    Pack(mac[o], mac[o + 1], mac[o + 2], mac[o + 3])
  }

  function Pack(a: nat, b: nat, c: nat, d: nat): nat
  {
    Or(Or(Or(Shl(And(a, 127), 24), Shl(b, 16)), Shl(c, 8)), d)
  }

  lemma Powers()
    ensures Pow2(4) == 16 && Pow2(7) == 128 && Pow2(8) == 256 && Pow2(16) == 65536 && Pow2(24) == 16777216
  {
  }

  lemma BinaryIsTruncated(mac: seq<Byte>)
    requires |mac| == 20
    ensures Binary(mac) == Truncated(mac) < 0x8000_0000
  {
    var o := mac[19] % 16;
    PackAdds(mac[o], mac[o + 1], mac[o + 2], mac[o + 3]);
  }

  lemma PackAdds(a: nat, b: nat, c: nat, d: nat)
    requires a < 256 && b < 256 && c < 256 && d < 256
    ensures Pack(a, b, c, d) == BigEndian31(a, b, c, d) < 0x8000_0000
  {
    Shifted(a, b, c);
    Join(a % 128, b, c, d);
  }

  lemma Shifted(a: nat, b: nat, c: nat)
    requires a < 256 && b < 256 && c < 256
    ensures Shl(And(a, 127), 24) == (a % 128) * 16777216 && Shl(b, 16) == b * 65536 && Shl(c, 8) == c * 256
  {
    Powers();
    AndMask(a, 7);
    ShlExact(a % 128, 24);
    ShlExact(b, 16);
    ShlExact(c, 8);
  }

  lemma Join(a: nat, b: nat, c: nat, d: nat)
    requires a < 128 && b < 256 && c < 256 && d < 256
    ensures Or(Or(Or(a * 16777216, b * 65536), c * 256), d) == a * 16777216 + b * 65536 + c * 256 + d
  {
    JoinFirst(a, b);
    JoinSecond(a * 256 + b, c);
    JoinThird(a * 65536 + b * 256 + c, d);
  }

  lemma JoinFirst(a: nat, b: nat)
    requires b < 256
    ensures Or(a * 16777216, b * 65536) == (a * 256 + b) * 65536
  {
    Powers();
    OrAdds(a, b * 65536, 24);
  }

  lemma JoinSecond(high: nat, c: nat)
    requires c < 256
    ensures Or(high * 65536, c * 256) == (high * 256 + c) * 256
  {
    Powers();
    OrAdds(high, c * 256, 16);
  }

  lemma JoinThird(high: nat, d: nat)
    requires d < 256
    ensures Or(high * 256, d) == high * 256 + d
  {
    Powers();
    OrAdds(high, d, 8);
  }

  lemma {:induction false} PaddingKeepsValue(s: string, n: nat)
    requires s != "" && forall c | c in s :: IsDigit(c)
    ensures var p := PadStart(s, n);
            |p| == (if |s| >= n then |s| else n) && (forall c | c in p :: IsDigit(c)) && Parse(p) == Parse(s)
    decreases n - |s|
  {
    if |s| < n {
      ZeroInFront(s);
      PaddingKeepsValue("0" + s, n);
    }
  }

  lemma {:induction false} ZeroInFront(s: string)
    requires forall c | c in s :: IsDigit(c)
    ensures (forall c | c in "0" + s :: IsDigit(c)) && Parse("0" + s) == Parse(s)
  {
    var t := "0" + s;
    if s == "" {
      assert t[..0] == "";
    } else {
      ZeroInFront(s[..|s| - 1]);
      assert t[..|t| - 1] == "0" + s[..|s| - 1];
    }
  }

  lemma {:induction false} DecimalLength(n: nat, k: nat, bound: nat)
    requires k > 0 && bound == Power10(k) && n < bound
    ensures |Decimal(n)| <= k
  {
    if n >= 10 {
      DecimalLength(n / 10, k - 1, Power10(k - 1));
    }
  }

  function Power10(k: nat): nat
  {
    if k == 0 then 1 else 10 * Power10(k - 1)
  }

  /** A code always has exactly six digits, and they spell the truncated MAC modulo 10^6. */
  lemma HotpIsSixDigits(mac: seq<Byte>)
    requires |mac| == 20
    ensures |Hotp(mac)| == 6 && (forall c | c in Hotp(mac) :: IsDigit(c)) && Parse(Hotp(mac)) == Truncated(mac) % MILLION
  {
    var n := Binary(mac) % MILLION;
    BinaryIsTruncated(mac);
    DecimalParses(n);
    assert Power10(3) == 1000;
    assert Power10(6) == MILLION;
    DecimalLength(n, 6, MILLION);
    PaddingKeepsValue(Decimal(n), 6);
  }

  /** The four bytes at the offset in the low half of the last byte, without the top bit. */
  lemma TruncatedBytes(mac: seq<Byte>, a: nat, b: nat, c: nat, d: nat)
    requires |mac| == 20
    requires a == mac[mac[19] % 16] && b == mac[mac[19] % 16 + 1] && c == mac[mac[19] % 16 + 2] && d == mac[mac[19] % 16 + 3]
    ensures |Hotp(mac)| == 6 && (forall c | c in Hotp(mac) :: IsDigit(c))
    ensures Parse(Hotp(mac)) == (a % 128 * 0x1000000 + b * 0x10000 + c * 0x100 + d) % 1_000_000
  {
    HotpIsSixDigits(mac);
  }

  // ---- TOTP ------------------------------------------------------------------------------------------

  predicate SixDigits(code: string)
  {
    |code| == 6 && forall c | c in code :: IsDigit(c)
  }

  function StepAt(nowMs: nat): nat { nowMs / 1000 / 30 }

  function CodeAt(hmac: Hmac, secret: seq<Byte>, step: nat): string
    requires IsSha1(hmac)
  {
    Hotp(hmac(secret, step))
  }

  /** `found` is the earliest step around now whose code is `code`; None when there is none. */
  ghost predicate FirstMatch(codeAt: nat -> string, code: string, now: nat, found: Option<nat>)
  {
    && (found.Some? ==> now - 1 <= found.value <= now + 1 && codeAt(found.value) == code)
    && forall s: nat | now - 1 <= s <= now + 1 && (found.None? || s < found.value) :: codeAt(s) != code
  }

  /** What `verifyTotp` finds for a code at this clock reading, once the secret is decoded. */
  ghost predicate Finds(hmac: Hmac, secret: seq<Byte>, code: string, nowMs: nat, found: Option<nat>)
    requires IsSha1(hmac)
  {
    && (found.Some? ==> StepAt(nowMs) - 1 <= found.value <= StepAt(nowMs) + 1 && CodeAt(hmac, secret, found.value) == code)
    && forall s: nat | StepAt(nowMs) - 1 <= s <= StepAt(nowMs) + 1 && (found.None? || s < found.value) :: CodeAt(hmac, secret, s) != code
  }

  lemma FirstIsFound(codeAt: nat -> string, hmac: Hmac, secret: seq<Byte>, code: string, nowMs: nat, found: Option<nat>)
    requires IsSha1(hmac) && forall s: nat :: codeAt(s) == CodeAt(hmac, secret, s)
    requires FirstMatch(codeAt, code, StepAt(nowMs), found)
    ensures Finds(hmac, secret, code, nowMs, found)
  {
    forall s: nat | StepAt(nowMs) - 1 <= s <= StepAt(nowMs) + 1 && (found.None? || s < found.value)
      ensures CodeAt(hmac, secret, s) != code
    {
      assert codeAt(s) != code;
    }
  }

  /**
   * verifyTotp with its defaults: one step of tolerance, 30-second steps. Err stands for the
   * exceptions: a secret that is not base32, and the negative counter of the first half minute of 1970.
   */
  method VerifyTotp(secretBase32: string, code: string, nowMs: nat, hmac: Hmac)
    returns (r: Result<Option<nat>, string>, ghost secret: seq<Byte>)
    requires IsSha1(hmac)
    ensures !SixDigits(code) ==> r == Ok(None)
    ensures SixDigits(code) ==> (r.Err? <==> !InAlphabet(Clean(secretBase32)) || nowMs < 30000)
    ensures SixDigits(code) && r.Ok? ==>
              && (exists qs :: Letters(qs) == Clean(secretBase32) && Decodes(qs, secret))
              && Finds(hmac, secret, code, nowMs, r.value)
    ensures r.Ok? && r.value.Some? ==>
              30000 * (r.value.value - 1) <= nowMs < 30000 * (r.value.value + 2) && code == Hotp(hmac(secret, r.value.value))
    ensures nowMs >= 30000 && InAlphabet(Clean(secretBase32)) ==>
              forall s: nat | 30000 * (s - 1) <= nowMs < 30000 * (s + 2) && code == Hotp(hmac(secret, s)) ::
                r.Ok? && r.value.Some? && r.value.value <= s
    ensures nowMs >= 30000 && InAlphabet(Clean(secretBase32)) && code == Hotp(hmac(secret, nowMs / 30000)) ==> r.Ok? && r.value.Some?
  {
    secret := [];
    if |code| != 6 || exists i | 0 <= i < |code| :: !IsDigit(code[i]) {
      NeverMalformed(hmac, secret, code);
      return Ok(None), secret;
    }
    ghost var qs;
    var decoded;
    decoded, qs := Base32Decode(secretBase32);
    if decoded.Err? { return Err(decoded.error), secret; }
    secret := decoded.value;
    var codeAt := (s: nat) => CodeAt(hmac, decoded.value, s);
    var found;
    found := MatchAround(codeAt, code, StepAt(nowMs));
    StepIsHalfMinute(nowMs);
    if found.Ok? { FirstIsFound(codeAt, hmac, secret, code, nowMs, found.value); }
    if found.Ok? { FindsInWindow(hmac, secret, code, nowMs, found.value); }
    return found, secret;
  }

  /** A code of another shape is the code of no step. */
  lemma NeverMalformed(hmac: Hmac, secret: seq<Byte>, code: string)
    requires IsSha1(hmac) && !SixDigits(code)
    ensures forall s: nat :: code != Hotp(hmac(secret, s))
  {
    forall s: nat ensures code != Hotp(hmac(secret, s)) { HotpIsSixDigits(hmac(secret, s)); }
  }

  lemma StepIsHalfMinute(nowMs: nat)
    ensures StepAt(nowMs) == nowMs / 30000
  {
  }

  /** The three steps of the window, on the clock. */
  lemma StepInWindow(nowMs: nat, s: int)
    ensures StepAt(nowMs) - 1 <= s <= StepAt(nowMs) + 1 <==> 30000 * (s - 1) <= nowMs < 30000 * (s + 2)
  {
    StepIsHalfMinute(nowMs);
  }

  lemma FoundCode(hmac: Hmac, secret: seq<Byte>, code: string, nowMs: nat, step: nat)
    requires IsSha1(hmac) && Finds(hmac, secret, code, nowMs, Some(step))
    ensures 30000 * (step - 1) <= nowMs < 30000 * (step + 2) && code == Hotp(hmac(secret, step))
  {
    StepInWindow(nowMs, step);
    assert CodeAt(hmac, secret, step) == code;
  }

  lemma FoundFirst(hmac: Hmac, secret: seq<Byte>, code: string, nowMs: nat, found: Option<nat>, s: nat)
    requires IsSha1(hmac) && Finds(hmac, secret, code, nowMs, found)
    requires 30000 * (s - 1) <= nowMs < 30000 * (s + 2) && code == Hotp(hmac(secret, s))
    ensures found.Some? && found.value <= s
  {
    StepInWindow(nowMs, s);
    assert CodeAt(hmac, secret, s) == code;
  }

  /** The first step of the window, a half minute to each side of the current one, that has this code. */
  lemma FindsInWindow(hmac: Hmac, secret: seq<Byte>, code: string, nowMs: nat, found: Option<nat>)
    requires IsSha1(hmac) && Finds(hmac, secret, code, nowMs, found)
    ensures found.Some? ==> 30000 * (found.value - 1) <= nowMs < 30000 * (found.value + 2) && code == Hotp(hmac(secret, found.value))
    ensures forall s: nat | 30000 * (s - 1) <= nowMs < 30000 * (s + 2) && code == Hotp(hmac(secret, s)) ::
              found.Some? && found.value <= s
    ensures code == Hotp(hmac(secret, nowMs / 30000)) ==> found.Some?
  {
    if found.Some? { FoundCode(hmac, secret, code, nowMs, found.value); }
    forall s: nat | 30000 * (s - 1) <= nowMs < 30000 * (s + 2) && code == Hotp(hmac(secret, s)) ensures found.Some? && found.value <= s {
      FoundFirst(hmac, secret, code, nowMs, found, s);
    }
    if code == Hotp(hmac(secret, nowMs / 30000)) { FoundFirst(hmac, secret, code, nowMs, found, nowMs / 30000); }
  }

  /** The loop over the deltas -1, 0 and 1. */
  method MatchAround(codeAt: nat -> string, code: string, current: nat) returns (r: Result<Option<nat>, string>)
    ensures r.Err? <==> current == 0
    ensures r.Ok? ==> FirstMatch(codeAt, code, current, r.value)
  {
    var delta := -1;
    while delta <= 1
      invariant -1 <= delta <= 2 && (delta >= 0 ==> current >= 1)
      invariant forall s: nat | current - 1 <= s < current + delta :: codeAt(s) != code
    {
      var step := current + delta;
      if step < 0 { return Err("counter out of range"); }
      if codeAt(step) == code { return Ok(Some(step)); }
      delta := delta + 1;
    }
    return Ok(None);
  }

  class MfaFactorRepository {
    var lastUsedStep: map<nat, Option<nat>>

    /** acceptTotpStep: the conditional UPDATE, and whether it changed a row. */
    method AcceptTotpStep(id: nat, step: nat) returns (accepted: bool)
      modifies this
      ensures accepted <==> id in old(lastUsedStep) && NewStep(old(lastUsedStep)[id], step)
      ensures lastUsedStep == if accepted then old(lastUsedStep)[id := Some(step)] else old(lastUsedStep)
    {
      if id in lastUsedStep && (lastUsedStep[id].None? || lastUsedStep[id].value < step) {
        lastUsedStep := lastUsedStep[id := Some(step)];
        return true;
      }
      return false;
    }
  }

  predicate NewStep(last: Option<nat>, step: nat)
  {
    last.None? || last.value < step
  }

  // ---- many verifiers, one factor ----------------------------------------------------------------------

  /** Who submitted a code: the Core session and the interaction, as text. */
  datatype Asker = Asker(sid: string, uid: string)

  /** `verifyTotp` found `step` for the code that this request had submitted. */
  datatype Match = Match(asker: Asker, code: string, step: nat, checkedAt: nat)

  /** Verifiers that matched a step but have not asked the database yet, and the accepted matches in order. */
  datatype State = State(secret: seq<Byte>, last: Option<nat>, pending: map<nat, Match>, accepted: seq<Match>)

  datatype Event = Matched(verifier: nat, m: Match) | Asks(verifier: nat)

  /** The code is the one of that step, the first such step in the window around the reading. */
  ghost predicate Genuine(hmac: Hmac, secret: seq<Byte>, m: Match)
  {
    IsSha1(hmac) && StepAt(m.checkedAt) > 0 && Finds(hmac, secret, m.code, m.checkedAt, Some(m.step))
  }

  ghost predicate Possible(s: State, e: Event, hmac: Hmac)
  {
    match e
    case Matched(v, m) => v !in s.pending && Genuine(hmac, s.secret, m)
    case Asks(v) => v in s.pending
  }

  function Apply(s: State, e: Event): State
    requires e.Asks? ==> e.verifier in s.pending
  {
    match e
    case Matched(v, m) => s.(pending := s.pending[v := m])
    case Asks(v) =>
      var m := s.pending[v];
      if NewStep(s.last, m.step) then s.(last := Some(m.step), pending := s.pending - {v}, accepted := s.accepted + [m])
      else s.(pending := s.pending - {v})
  }

  predicate Increasing(ms: seq<Match>)
  {
    forall i, j | 0 <= i < j < |ms| :: ms[i].step < ms[j].step
  }

  predicate InTime(m: Match)
  {
    StepAt(m.checkedAt) - 1 <= m.step <= StepAt(m.checkedAt) + 1
  }

  ghost predicate Inv(s: State, hmac: Hmac)
  {
    && Increasing(s.accepted)
    && (forall m | m in s.accepted :: Genuine(hmac, s.secret, m))
    && (forall v | v in s.pending :: Genuine(hmac, s.secret, s.pending[v]))
    && (s.accepted != [] ==> s.last == Some(s.accepted[|s.accepted| - 1].step))
  }

  ghost predicate IsRun(tr: seq<State>, es: seq<Event>, hmac: Hmac)
  {
    && |tr| == |es| + 1
    && tr[0].pending == map[] && tr[0].accepted == []
    && forall i | 0 <= i < |es| :: Possible(tr[i], es[i], hmac) && tr[i + 1] == Apply(tr[i], es[i])
  }

  lemma StepKeeps(s: State, e: Event, hmac: Hmac)
    requires Inv(s, hmac) && Possible(s, e, hmac)
    ensures Inv(Apply(s, e), hmac)
  {
    if e.Asks? { AskKeeps(s, e.verifier, hmac); }
  }

  lemma AskKeeps(s: State, v: nat, hmac: Hmac)
    requires Inv(s, hmac) && v in s.pending
    ensures Inv(Apply(s, Asks(v)), hmac)
  {
    var ms, m := s.accepted, s.pending[v];
    if NewStep(s.last, m.step) { IncreasingStep(ms, m); }
  }

  lemma IncreasingStep(ms: seq<Match>, m: Match)
    requires Increasing(ms) && (ms != [] ==> ms[|ms| - 1].step < m.step)
    ensures Increasing(ms + [m])
  {
  }

  /**
   * Under any interleaving the accepted steps strictly increase. Each is at most one half minute away from
   * its check, and the code submitted for it is the code of that step, six digits long.
   */
  lemma {:induction false} AcceptedSteps(tr: seq<State>, es: seq<Event>, hmac: Hmac, i: nat)
    requires IsRun(tr, es, hmac) && i < |tr|
    ensures Inv(tr[i], hmac)
    ensures forall j, k | 0 <= j < k < |tr[i].accepted| :: tr[i].accepted[j].step < tr[i].accepted[k].step
    ensures forall m | m in tr[i].accepted ::
              && 30000 * (m.step - 1) <= m.checkedAt < 30000 * (m.step + 2)
              && IsSha1(hmac) && m.code == Hotp(hmac(tr[i].secret, m.step)) && SixDigits(m.code)
  {
    if i > 0 {
      AcceptedSteps(tr, es, hmac, i - 1);
      assert tr[i - 1 + 1] == Apply(tr[i - 1], es[i - 1]);
      StepKeeps(tr[i - 1], es[i - 1], hmac);
    }
    forall m | m in tr[i].accepted
      ensures && 30000 * (m.step - 1) <= m.checkedAt < 30000 * (m.step + 2)
              && IsSha1(hmac) && m.code == Hotp(hmac(tr[i].secret, m.step)) && SixDigits(m.code)
    {
      GenuineCode(hmac, tr[i].secret, m);
    }
  }

  lemma GenuineCode(hmac: Hmac, secret: seq<Byte>, m: Match)
    requires Genuine(hmac, secret, m)
    ensures 30000 * (m.step - 1) <= m.checkedAt < 30000 * (m.step + 2)
    ensures InTime(m) && m.code == Hotp(hmac(secret, m.step)) && SixDigits(m.code)
  {
    FoundCode(hmac, secret, m.code, m.checkedAt, m.step);
    StepInWindow(m.checkedAt, m.step);
    HotpIsSixDigits(hmac(secret, m.step));
  }

  function CheckedIn(ms: seq<Match>, t0: nat, t1: nat): nat
  {
    if ms == [] then 0
    else CheckedIn(ms[..|ms| - 1], t0, t1) + (if t0 <= ms[|ms| - 1].checkedAt <= t1 then 1 else 0)
  }

  lemma {:induction false} CountSteps(ms: seq<Match>, t0: nat, t1: nat, lo: int)
    requires Increasing(ms) && forall m | m in ms :: InTime(m)
    requires lo == StepAt(t0) - 1
    ensures CheckedIn(ms, t0, t1) <= (if ms == [] || ms[|ms| - 1].step < lo then 0 else ms[|ms| - 1].step - lo + 1)
  {
    if ms != [] {
      var m := ms[|ms| - 1];
      var front := ms[..|ms| - 1];
      assert m in ms && forall x | x in front :: x in ms;
      CountSteps(front, t0, t1, lo);
      if t0 <= m.checkedAt { StepMonotone(t0, m.checkedAt); }
    }
  }

  lemma StepMonotone(a: nat, b: nat)
    requires a <= b
    ensures StepAt(a) <= StepAt(b)
  {
  }

  lemma {:induction false} GenuineInTime(s: State, hmac: Hmac)
    requires Inv(s, hmac)
    ensures forall m | m in s.accepted :: InTime(m)
  {
    forall m | m in s.accepted ensures InTime(m) { GenuineCode(hmac, s.secret, m); }
  }

  /** Of the checks made from t0 to t1, at most floor(t1/30 s) - floor(t0/30 s) + 3 are ever accepted. */
  lemma AcceptedAtMost(tr: seq<State>, es: seq<Event>, hmac: Hmac, i: nat, t0: nat, t1: nat)
    requires IsRun(tr, es, hmac) && i < |tr| && t0 <= t1
    ensures CheckedIn(tr[i].accepted, t0, t1) <= t1 / 30000 - t0 / 30000 + 3
  {
    AcceptedSteps(tr, es, hmac, i);
    GenuineInTime(tr[i], hmac);
    StepIsHalfMinute(t0);
    StepIsHalfMinute(t1);
    CountBounded(tr[i].accepted, t0, t1);
  }

  lemma {:induction false} CountBounded(ms: seq<Match>, t0: nat, t1: nat)
    requires Increasing(ms) && forall m | m in ms :: InTime(m)
    requires t0 <= t1
    ensures CheckedIn(ms, t0, t1) <= StepAt(t1) - StepAt(t0) + 3
  {
    StepMonotone(t0, t1);
    if ms != [] {
      var m := ms[|ms| - 1];
      assert m in ms;
      if m.checkedAt <= t1 {
        StepMonotone(m.checkedAt, t1);
        CountSteps(ms, t0, t1, StepAt(t0) - 1);
      } else {
        assert forall x | x in ms[..|ms| - 1] :: x in ms;
        CountBounded(ms[..|ms| - 1], t0, t1);
      }
    }
  }
}
