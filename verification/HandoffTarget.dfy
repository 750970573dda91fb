/**
 * The reference verifier of a target application: it accepts a handoff assertion once. Signature
 * checking is abstract: a token either carries claims signed by the issuer or is refused.
 */
module HandoffTarget {
  import opened Common
  import opened Handoff
  import HandoffPath
  import Numerals

  /** What the library makes of a token, apart from its expiry. */
  datatype Jws = UnknownKey | BadSignature | BadClaims | Payload(a: Assertion)

  datatype Header = Header(typ: string, alg: string, hasKid: bool)

  /** `header` is None when it cannot be decoded. */
  datatype Token = Token(length: nat, header: Option<Header>, jws: Jws)

  datatype App = App(clientId: ClientId, realm: Realm, patterns: seq<string>)

  datatype Code =
    | Missing | Malformed | TypInvalid | AlgInvalid | KidUnknown | SignatureInvalid | ClaimsInvalid
    | TokenExpired | TargetMismatch | HandoffRealmMismatch | Replayed | PathInvalid

  /** `denied` is the demo policy for paths under /admin/. */
  datatype Verdict = Accepted(a: Assertion, denied: bool) | Refused(code: Code)

  /** Clock tolerance in seconds, and how long an accepted jti is remembered, in milliseconds. */
  const TOLERANCE := 30
  const WINDOW := 120000
  const MAX_TOKEN := 8192

  /** The expiry check of the library, on whole seconds. */
  predicate InTime(exp: int, now: int)
  {
    now / 1000 - TOLERANCE < exp
  }

  predicate IsItsId(s: string)
  {
    1 <= |s| <= 10 && forall i :: 0 <= i < |s| ==> Numerals.IsDigit(s[i])
  }

  /** Every check before the one-time map passes. */
  predicate Trusted(app: App, token: Token, now: int)
  {
    && token.length <= MAX_TOKEN
    && token.header.Some? && token.header.value == Header("miqaat-handoff+jwt", "RS256", true)
    && token.jws.Payload?
    && var a := token.jws.a;
      InTime(a.exp, now) && a.target == app.clientId && a.realm == app.realm && IsItsId(a.itsId)
  }

  /** The map after the entries that are too old were deleted. */
  function Pruned(seen: map<Jti, int>, now: int): (r: map<Jti, int>)
    ensures forall j :: j in r <==> j in seen && now - seen[j] <= WINDOW
    ensures forall j :: j in r ==> r[j] == seen[j]
  {
    map j | j in seen && now - seen[j] <= WINDOW :: seen[j]
  }

  /** The map after one verification. */
  function AfterVerify(seen: map<Jti, int>, app: App, token: Token, now: int): map<Jti, int>
  {
    if !Trusted(app, token, now) then seen
    else
      var kept := Pruned(seen, now);
      if token.jws.a.jti in kept then kept else kept[token.jws.a.jti := now]
  }

  predicate PathFits(app: App, path: string)
  {
    HandoffPath.Normalize(Some(path)) == Some(path) && HandoffPath.IsAllowedPath(path, app.patterns)
  }

  predicate Accepts(seen: map<Jti, int>, app: App, token: Token, now: int)
  {
    && Trusted(app, token, now)
    && token.jws.a.jti !in Pruned(seen, now)
    && PathFits(app, token.jws.a.path)
  }

  class TargetApp {
    const app: App
    var handoffJti: map<Jti, int>

    constructor (app: App)
      ensures this.app == app && handoffJti == map[]
    {
      this.app, handoffJti := app, map[];
    }

    method Prune(now: int)
      modifies this
      ensures handoffJti == Pruned(old(handoffJti), now)
    {
      var keys := handoffJti.Keys;
      while keys != {}
        invariant keys <= old(handoffJti.Keys)
        invariant forall j :: j in handoffJti <==> j in old(handoffJti) && (j in keys || now - old(handoffJti)[j] <= WINDOW)
        invariant forall j :: j in handoffJti ==> handoffJti[j] == old(handoffJti)[j]
        decreases |keys|
      {
        var j :| j in keys;
        if now - handoffJti[j] > WINDOW { handoffJti := handoffJti - {j}; }
        keys := keys - {j};
      }
      assert handoffJti == Pruned(old(handoffJti), now);
    }

    method VerifyHandoff(token: Option<Token>, now: int) returns (v: Verdict)
      modifies this
      ensures handoffJti == if token.None? then old(handoffJti) else AfterVerify(old(handoffJti), app, token.value, now)
      ensures v.Accepted? <==> token.Some? && Accepts(old(handoffJti), app, token.value, now)
      ensures v.Accepted? <==>
                && token.Some? && token.value.length <= 8192
                && token.value.header == Some(Header("miqaat-handoff+jwt", "RS256", true)) && token.value.jws.Payload?
                && var a := token.value.jws.a;
                  && a.exp > now / 1000 - 30 && a.target == app.clientId && a.realm == app.realm
                  && 1 <= |a.itsId| <= 10 && (forall i :: 0 <= i < |a.itsId| ==> '0' <= a.itsId[i] <= '9')
                  && (a.jti in old(handoffJti) ==> now - old(handoffJti)[a.jti] > 120000)
                  && HandoffPath.Normalize(Some(a.path)) == Some(a.path) && HandoffPath.IsAllowedPath(a.path, app.patterns)
      ensures v.Accepted? || v == Refused(PathInvalid) ==>
                token.Some? && token.value.jws.Payload? && token.value.jws.a.jti in handoffJti && handoffJti[token.value.jws.a.jti] == now
      ensures v.Refused? && v != Refused(PathInvalid) ==>
                forall j | j in handoffJti :: j in old(handoffJti) && handoffJti[j] == old(handoffJti)[j]
      ensures v.Accepted? ==> v.a == token.value.jws.a && (v.denied <==> "/admin/" <= v.a.path)
      ensures v == Refused(Replayed) <==>
                token.Some? && Trusted(app, token.value, now) && token.value.jws.a.jti in Pruned(old(handoffJti), now)
      ensures v == Refused(TokenExpired) ==> token.Some? && token.value.jws.Payload? && !InTime(token.value.jws.a.exp, now)
    {
      if token.None? { return Refused(Missing); }
      var t := token.value;
      if t.length > MAX_TOKEN || t.header.None? { return Refused(Malformed); }
      if t.header.value.typ != "miqaat-handoff+jwt" { return Refused(TypInvalid); }
      if t.header.value.alg != "RS256" { return Refused(AlgInvalid); }
      if !t.header.value.hasKid || t.jws.UnknownKey? { return Refused(KidUnknown); }
      if t.jws.BadSignature? { return Refused(SignatureInvalid); }
      if t.jws.BadClaims? { return Refused(ClaimsInvalid); }
      var a := t.jws.a;
      if !InTime(a.exp, now) { return Refused(TokenExpired); }
      if a.target != app.clientId { return Refused(TargetMismatch); }
      if a.realm != app.realm { return Refused(HandoffRealmMismatch); }
      if !IsItsId(a.itsId) { return Refused(Malformed); }
      Prune(now);
      if a.jti in handoffJti { return Refused(Replayed); }
      handoffJti := handoffJti[a.jti := now];
      var path := HandoffPath.Normalize(Some(a.path));
      if path.None? || path.value != a.path || !HandoffPath.IsAllowedPath(path.value, app.patterns) { return Refused(PathInvalid); }
      return Accepted(a, "/admin/" <= path.value);
    }
  }

  // ---- one assertion presented any number of times --------------------------------------------------

  /** Tokens presented at one target, with the clock reading of each verification. */
  datatype Presented = Presented(token: Token, at: int)

  function Seen(app: App, calls: seq<Presented>, n: nat): map<Jti, int>
    requires n <= |calls|
  {
    if n == 0 then map[] else AfterVerify(Seen(app, calls, n - 1), app, calls[n - 1].token, calls[n - 1].at)
  }

  predicate AcceptedAt(app: App, calls: seq<Presented>, n: nat)
    requires n < |calls|
  {
    Accepts(Seen(app, calls, n), app, calls[n].token, calls[n].at)
  }

  /** The clock does not go back, and an assertion is presented no earlier than it was issued, with this lifetime. */
  ghost predicate Plausible(calls: seq<Presented>, ttl: nat)
  {
    && (forall i, j :: 0 <= i < j < |calls| ==> calls[i].at <= calls[j].at)
    && (forall i :: 0 <= i < |calls| && calls[i].token.jws.Payload? ==>
          calls[i].token.jws.a.iat * 1000 <= calls[i].at && calls[i].token.jws.a.exp == calls[i].token.jws.a.iat + ttl)
  }

  /** Calls i and j accept the same assertion, in whatever token it comes. */
  ghost predicate AcceptsTwice(app: App, calls: seq<Presented>, i: nat, j: nat)
  {
    && i < j < |calls|
    && AcceptedAt(app, calls, i) && AcceptedAt(app, calls, j)
    && calls[i].token.jws == calls[j].token.jws
  }

  /** An acceptance that a later reading of the map still has to know about. */
  predicate Knows(seen: map<Jti, int>, jti: Jti, at: int, now: int)
  {
    (jti in seen && seen[jti] == at) || now - at > WINDOW
  }

  lemma {:induction false} VerifyKeepsKnown(seen: map<Jti, int>, app: App, token: Token, now: int, jti: Jti, at: int)
    requires Knows(seen, jti, at, now)
    ensures Knows(AfterVerify(seen, app, token, now), jti, at, now)
  {
    if jti in seen && seen[jti] == at && now - at <= WINDOW { assert jti in Pruned(seen, now); }
  }

  lemma {:induction false} AcceptanceKnown(seen: map<Jti, int>, app: App, token: Token, now: int)
    requires Accepts(seen, app, token, now)
    ensures Knows(AfterVerify(seen, app, token, now), token.jws.a.jti, now, now)
  {
  }

  lemma {:induction false} SeenStep(app: App, calls: seq<Presented>, n: nat)
    requires n < |calls|
    ensures Seen(app, calls, n + 1) == AfterVerify(Seen(app, calls, n), app, calls[n].token, calls[n].at)
  {
  }

  /** What is known after call i is known, or too old, after every later call. */
  lemma {:induction false} StillKnown(app: App, calls: seq<Presented>, i: nat, j: nat, jti: Jti, at: int)
    requires forall a, b :: 0 <= a < b < |calls| ==> calls[a].at <= calls[b].at
    requires i < j <= |calls| && Knows(Seen(app, calls, i + 1), jti, at, calls[i].at)
    ensures Knows(Seen(app, calls, j), jti, at, calls[j - 1].at)
    decreases j
  {
    if j > i + 1 {
      StillKnown(app, calls, i, j - 1, jti, at);
      assert calls[j - 2].at <= calls[j - 1].at;
      VerifyKeepsKnown(Seen(app, calls, j - 1), app, calls[j - 1].token, calls[j - 1].at, jti, at);
      SeenStep(app, calls, j - 1);
    }
  }

  /** A jti that was accepted is remembered until more than the window has passed. */
  lemma {:induction false} Remembered(app: App, calls: seq<Presented>, ttl: nat, i: nat, j: nat)
    requires Plausible(calls, ttl) && i < j <= |calls| && AcceptedAt(app, calls, i)
    ensures Knows(Seen(app, calls, j), calls[i].token.jws.a.jti, calls[i].at, calls[j - 1].at)
  {
    AcceptanceKnown(Seen(app, calls, i), app, calls[i].token, calls[i].at);
    SeenStep(app, calls, i);
    StillKnown(app, calls, i, j, calls[i].token.jws.a.jti, calls[i].at);
  }

  /** Two acceptances of one jti are more than the window apart. */
  lemma {:induction false} AcceptancesApart(app: App, calls: seq<Presented>, ttl: nat, i: nat, j: nat)
    requires Plausible(calls, ttl) && AcceptsTwice(app, calls, i, j)
    ensures calls[j].at - calls[i].at > WINDOW
  {
    Remembered(app, calls, ttl, i, j);
    assert calls[i].at <= calls[j].at && calls[j - 1].at <= calls[j].at;
    NotKnown(Seen(app, calls, j), app, calls[j].token, calls[j].at, calls[i].at, calls[j - 1].at);
  }

  lemma {:induction false} NotKnown(seen: map<Jti, int>, app: App, token: Token, now: int, at: int, before: int)
    requires Accepts(seen, app, token, now) && Knows(seen, token.jws.a.jti, at, before) && before <= now
    ensures now - at > WINDOW
  {
  }

  lemma {:induction false} TwiceNeedsLongLife(app: App, calls: seq<Presented>, ttl: nat, i: nat, j: nat)
    requires Plausible(calls, ttl) && AcceptsTwice(app, calls, i, j)
    ensures ttl + TOLERANCE > WINDOW / 1000
  {
    AcceptancesApart(app, calls, ttl, i, j);
    var a := calls[j].token.jws.a;
    assert calls[i].token.jws.a.iat == a.iat;
    assert calls[j].at / 1000 < a.iat + ttl + TOLERANCE;
  }

  function SampleToken(app: App, itsId: string, path: string, ttl: nat): Token
  {
    Token(1000, Some(Header("miqaat-handoff+jwt", "RS256", true)),
          Payload(Assertion(0, app.clientId, app.realm, path, itsId, 0, false, 0, ttl, 0)))
  }

  /** With a longer life, the assertion is accepted at once and again 120.999 seconds later. */
  lemma {:induction false} LongLifeIsReplayed(app: App, itsId: string, path: string, ttl: nat)
    requires ttl + TOLERANCE > WINDOW / 1000
    requires IsItsId(itsId) && PathFits(app, path)
    ensures var token := SampleToken(app, itsId, path, ttl);
      var calls := [Presented(token, 0), Presented(token, 120999)];
      Plausible(calls, ttl) && AcceptsTwice(app, calls, 0, 1)
  {
  }

  /**
   * An application that accepts some path at all can be made to accept one assertion twice exactly
   * when the assertion's lifetime plus the tolerance exceeds the replay window.
   */
  lemma {:induction false} ReplayIff(app: App, itsId: string, path: string, ttl: nat)
    requires IsItsId(itsId) && PathFits(app, path)
    ensures (exists calls: seq<Presented>, i: nat, j: nat :: Plausible(calls, ttl) && AcceptsTwice(app, calls, i, j))
      <==> ttl + 30 > 120
  {
    if ttl + 30 > 120 { LongLifeIsReplayed(app, itsId, path, ttl); }
    if calls: seq<Presented>, i: nat, j: nat :| Plausible(calls, ttl) && AcceptsTwice(app, calls, i, j) {
      TwiceNeedsLongLife(app, calls, ttl, i, j);
    }
  }
}
