/**
 * Core realm sessions: the Redis hot copy (sso:<realm>:<hash>) in front of the auth_sessions row.
 *
 * A cookie secret is represented by its SHA-256, taken as injective on the secrets in use; None is a
 * missing cookie, or one whose length is outside 32..128. Random secrets and uuids are parameters.
 * Every public method is one atomic step at one clock reading; times are epoch milliseconds.
 */
module GlobalSession {
  import opened Common

  type Sid = nat
  type Hash = nat

  datatype Method = EmailOtp | SmsOtp | Totp
  datatype Factor = Pwd | Otp

  datatype Session = Session(
    sid: Sid, itsId: string, realm: Realm, aal: nat, amr: seq<Factor>, authTime: int,
    mfaAt: Option<int>, mfaMethod: Option<Method>, idleEnd: int, absoluteEnd: int)

  datatype Row = Row(
    itsId: string, realm: Realm, hash: Hash, active: bool, aal: nat, amr: Option<seq<Factor>>, authTime: Option<int>,
    createdAt: int, mfaAt: Option<int>, mfaMethod: Option<Method>, expiresAt: int, absoluteEnd: int)

  datatype HotKey = HotKey(realm: Realm, hash: Hash)

  /** A Redis value with its expiry: gone from `until` on. */
  datatype Hot = Hot(session: Session, until: int)

  datatype Store = Store(hot: map<HotKey, Hot>, rows: map<Sid, Row>)

  /** SESSION_IDLE_TTL_SECONDS and SESSION_ABSOLUTE_TTL_SECONDS; the configuration refuses values under 30. */
  datatype Config = Config(idle: nat, absolute: nat) {
    predicate Valid() { idle >= 30 && absolute >= 30 }
  }

  datatype Loaded = Loaded(session: Session, hash: Hash)

  function Min(a: int, b: int): int { if a <= b then a else b }

  function ToSession(sid: Sid, r: Row): Session
  {
    Session(sid, r.itsId, r.realm, if r.aal == 2 then 2 else 1,
            if r.amr.Some? then r.amr.value else [Pwd],
            if r.authTime.Some? then r.authTime.value else r.createdAt,
            r.mfaAt, r.mfaMethod, r.expiresAt, r.absoluteEnd)
  }

  /** SET ... EX ttl with whole seconds, rounded up; nothing is written when nothing is left. */
  function WriteHot(hot: map<HotKey, Hot>, hash: Hash, s: Session, now: int): map<HotKey, Hot>
  {
    var ttl := (Min(s.idleEnd, s.absoluteEnd) - now + 999) / 1000;
    if ttl <= 0 then hot else hot[HotKey(s.realm, hash) := Hot(s, now + 1000 * ttl)]
  }

  predicate InHot(st: Store, k: HotKey, now: int)
  {
    k in st.hot && now < st.hot[k].until
  }

  predicate Matches(rows: map<Sid, Row>, sid: Sid, realm: Realm, hash: Hash)
  {
    sid in rows && rows[sid].active && rows[sid].realm == realm && rows[sid].hash == hash
  }

  /** The durable lookup; the unique index on the hash makes the match unique. */
  ghost function FindRow(rows: map<Sid, Row>, realm: Realm, hash: Hash): (s: Option<Session>)
    ensures s.None? ==> forall sid :: !Matches(rows, sid, realm, hash)
    ensures s.Some? ==> Matches(rows, s.value.sid, realm, hash) && s.value == ToSession(s.value.sid, rows[s.value.sid])
  {
    if exists sid :: Matches(rows, sid, realm, hash)
    then var sid :| Matches(rows, sid, realm, hash); Some(ToSession(sid, rows[sid]))
    else None
  }

  predicate Usable(s: Session, realm: Realm, now: int)
  {
    s.realm == realm && now < s.idleEnd && now < s.absoluteEnd
  }

  ghost function Load(st: Store, realm: Realm, cookie: Option<Hash>, now: int): Option<Loaded>
  {
    if cookie.None? then None
    else
      var k := HotKey(realm, cookie.value);
      var s := if InHot(st, k, now) then Some(st.hot[k].session) else FindRow(st.rows, realm, cookie.value);
      if s.Some? && Usable(s.value, realm, now) then Some(Loaded(s.value, cookie.value)) else None
  }

  /** The store after a load: the fallback rebuilds the hot copy. */
  ghost function AfterLoad(st: Store, realm: Realm, cookie: Option<Hash>, now: int): Store
  {
    var l := Load(st, realm, cookie, now);
    if l.None? || InHot(st, HotKey(realm, l.value.hash), now) then st
    else st.(hot := WriteHot(st.hot, l.value.hash, l.value.session, now))
  }

  function NewSession(realm: Realm, itsId: string, sid: Sid, now: int, cfg: Config): Session
  {
    Session(sid, itsId, realm, 1, [Pwd], now, None, None, now + cfg.idle * 1000, now + cfg.absolute * 1000)
  }

  function NewRow(s: Session, hash: Hash): Row
  {
    Row(s.itsId, s.realm, hash, true, 1, Some([Pwd]), Some(s.authTime), s.authTime, None, None, s.idleEnd, s.absoluteEnd)
  }

  function Create(st: Store, s: Session, hash: Hash, now: int): Store
  {
    Store(WriteHot(st.hot, hash, s, now), st.rows[s.sid := NewRow(s, hash)])
  }

  ghost function Touch(st: Store, realm: Realm, cookie: Option<Hash>, now: int, cfg: Config): Store
  {
    var l := Load(st, realm, cookie, now);
    var st1 := AfterLoad(st, realm, cookie, now);
    if l.None? then st1
    else
      var s := l.value.session.(idleEnd := Min(now + cfg.idle * 1000, l.value.session.absoluteEnd));
      Store(WriteHot(st1.hot, l.value.hash, s, now),
            if s.sid in st1.rows then st1.rows[s.sid := st1.rows[s.sid].(expiresAt := s.idleEnd)] else st1.rows)
  }

  function Upgraded(s: Session, m: Method, now: int): Session
  {
    s.(aal := 2, amr := [Pwd, Otp], mfaAt := Some(now), mfaMethod := Some(m))
  }

  /** upgradeToAal2 refuses when the browser's session is no longer the one that was verified. */
  ghost predicate UpgradeAllowed(st: Store, realm: Realm, sid: Sid, cookie: Option<Hash>, now: int)
  {
    var l := Load(st, realm, cookie, now);
    l.Some? && l.value.session.sid == sid
  }

  ghost function Upgrade(st: Store, realm: Realm, sid: Sid, m: Method, cookie: Option<Hash>, hash: Hash, now: int): Store
  {
    var l := Load(st, realm, cookie, now);
    var st1 := AfterLoad(st, realm, cookie, now);
    if !UpgradeAllowed(st, realm, sid, cookie, now) then st1
    else
      var s := Upgraded(l.value.session, m, now);
      Store(WriteHot(st1.hot - {HotKey(realm, l.value.hash)}, hash, s, now),
            if sid in st1.rows
            then st1.rows[sid := st1.rows[sid].(aal := 2, amr := Some(s.amr), mfaMethod := Some(m), mfaAt := Some(now), hash := hash)]
            else st1.rows)
  }

  ghost function Revoke(st: Store, realm: Realm, cookie: Option<Hash>, now: int): Store
  {
    var l := Load(st, realm, cookie, now);
    var st1 := AfterLoad(st, realm, cookie, now);
    if l.None? then st1
    else
      Store(st1.hot - {HotKey(realm, l.value.hash)},
            if l.value.session.sid in st1.rows
            then st1.rows[l.value.session.sid := st1.rows[l.value.session.sid].(active := false)]
            else st1.rows)
  }

  ghost predicate UniqueHashes(rows: map<Sid, Row>)
  {
    forall a, b | a in rows && b in rows && a != b :: rows[a].hash != rows[b].hash
  }

  class GlobalSessionService {
    const cfg: Config
    var hot: map<HotKey, Hot>
    var rows: map<Sid, Row>

    ghost function Now(): Store
      reads this
    {
      Store(hot, rows)
    }

    constructor (cfg: Config)
      ensures this.cfg == cfg && Now() == Store(map[], map[])
    {
      this.cfg, hot, rows := cfg, map[], map[];
    }

    method Fetch(realm: Realm, cookie: Option<Hash>, now: int) returns (loaded: Option<Loaded>)
      requires UniqueHashes(rows)
      modifies this`hot
      ensures loaded == Load(old(Now()), realm, cookie, now)
      ensures Now() == AfterLoad(old(Now()), realm, cookie, now)
    {
      if cookie.None? { return None; }
      var k := HotKey(realm, cookie.value);
      var found: Option<Session> := None;
      var wasHot := k in hot && now < hot[k].until;
      if wasHot {
        found := Some(hot[k].session);
      } else if exists sid :: sid in rows && rows[sid].active && rows[sid].realm == realm && rows[sid].hash == cookie.value {
        var sid :| sid in rows && rows[sid].active && rows[sid].realm == realm && rows[sid].hash == cookie.value;
        assert Matches(rows, sid, realm, cookie.value);
        found := Some(ToSession(sid, rows[sid]));
      }
      if found.None? || found.value.realm != realm { return None; }
      if now >= found.value.idleEnd || now >= found.value.absoluteEnd { return None; }
      if !wasHot {
        WriteHotCopy(cookie.value, found.value, now);
      }
      return Some(Loaded(found.value, cookie.value));
    }

    method WriteHotCopy(hash: Hash, s: Session, now: int)
      modifies this`hot
      ensures hot == WriteHot(old(hot), hash, s, now)
      ensures var k := HotKey(s.realm, hash);
              if s.idleEnd <= now || s.absoluteEnd <= now then hot == old(hot)
              else
                && hot.Keys == old(hot.Keys) + {k} && hot[k].session == s && (hot[k].until - now) % 1000 == 0
                && (s.idleEnd <= hot[k].until || s.absoluteEnd <= hot[k].until)
                && hot[k].until < s.idleEnd + 1000 && hot[k].until < s.absoluteEnd + 1000
                && forall j | j in old(hot) && j != k :: hot[j] == old(hot)[j]
    {
      var ttl := (Min(s.idleEnd, s.absoluteEnd) - now + 999) / 1000;
      if ttl <= 0 { return; }
      hot := hot[HotKey(s.realm, hash) := Hot(s, now + 1000 * ttl)];
    }

    method CreateSession(realm: Realm, itsId: string, sid: Sid, hash: Hash, now: int) returns (s: Session)
      requires sid !in rows && forall x | x in rows :: rows[x].hash != hash
      modifies this
      ensures s == NewSession(realm, itsId, sid, now, cfg)
      ensures Now() == Create(old(Now()), s, hash, now)
    {
      s := NewSession(realm, itsId, sid, now, cfg);
      rows := rows[sid := NewRow(s, hash)];
      WriteHotCopy(hash, s, now);
    }

    method TouchSession(realm: Realm, cookie: Option<Hash>, now: int)
      requires UniqueHashes(rows)
      modifies this
      ensures Now() == Touch(old(Now()), realm, cookie, now, cfg)
    {
      var loaded := Fetch(realm, cookie, now);
      if loaded.None? { return; }
      var s := loaded.value.session;
      s := s.(idleEnd := Min(now + cfg.idle * 1000, s.absoluteEnd));
      WriteHotCopy(loaded.value.hash, s, now);
      if s.sid in rows {
        rows := rows[s.sid := rows[s.sid].(expiresAt := s.idleEnd)];
      }
    }

    method UpgradeToAal2(realm: Realm, sid: Sid, m: Method, cookie: Option<Hash>, hash: Hash, now: int) returns (r: Result<Session, string>)
      requires UniqueHashes(rows)
      modifies this
      ensures r.Ok? <==> UpgradeAllowed(old(Now()), realm, sid, cookie, now)
      ensures r.Ok? ==> r.value == Upgraded(Load(old(Now()), realm, cookie, now).value.session, m, now)
      ensures Now() == Upgrade(old(Now()), realm, sid, m, cookie, hash, now)
    {
      var loaded := Fetch(realm, cookie, now);
      if loaded.None? || loaded.value.session.sid != sid { return Err("session changed during MFA"); }
      var s := Upgraded(loaded.value.session, m, now);
      if sid in rows {
        rows := rows[sid := rows[sid].(aal := 2, amr := Some(s.amr), mfaMethod := Some(m), mfaAt := Some(now), hash := hash)];
      }
      hot := hot - {HotKey(realm, loaded.value.hash)};
      WriteHotCopy(hash, s, now);
      return Ok(s);
    }

    method RevokeSession(realm: Realm, cookie: Option<Hash>, now: int) returns (ended: Option<Session>)
      requires UniqueHashes(rows)
      modifies this
      ensures ended.Some? <==> Load(old(Now()), realm, cookie, now).Some?
      ensures ended.Some? ==> ended.value == Load(old(Now()), realm, cookie, now).value.session
      ensures Now() == Revoke(old(Now()), realm, cookie, now)
    {
      var loaded := Fetch(realm, cookie, now);
      if loaded.None? { return None; }
      hot := hot - {HotKey(realm, loaded.value.hash)};
      var sid := loaded.value.session.sid;
      if sid in rows && rows[sid].active {
        rows := rows[sid := rows[sid].(active := false)];
      } else if sid in rows {
        assert rows == rows[sid := rows[sid].(active := false)];
      }
      return Some(loaded.value.session);
    }
  }
}
