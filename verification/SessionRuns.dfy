/**
 * Whole runs of the session store: any sequence of session operations in both realms, the clock, and
 * the loss of any hot copies at any moment. The hot copy refines the durable row.
 */
module SessionRuns {
  import opened Common
  import opened GlobalSession

  /** `issued` collects every secret ever handed to a browser. */
  datatype State = State(now: int, store: Store, issued: set<Hash>)

  datatype Step =
    | Wait(to: int)
    | Lose(keys: set<HotKey>)
    | Read(realm: Realm, cookie: Option<Hash>)
    | Start(realm: Realm, itsId: string, sid: Sid, hash: Hash)
    | Slide(realm: Realm, cookie: Option<Hash>)
    | StepUp(realm: Realm, sid: Sid, m: Method, cookie: Option<Hash>, hash: Hash)
    | End(realm: Realm, cookie: Option<Hash>)

  predicate Enabled(s: State, st: Step)
  {
    match st
    case Wait(to) => s.now <= to
    case Start(_, _, sid, hash) => sid !in s.store.rows && hash !in s.issued
    case StepUp(_, _, _, _, hash) => hash !in s.issued
    case _ => true
  }

  ghost function Apply(s: State, st: Step, cfg: Config): State
  {
    match st
    case Wait(to) => s.(now := to)
    case Lose(keys) => s.(store := s.store.(hot := s.store.hot - keys))
    case Read(realm, cookie) => s.(store := AfterLoad(s.store, realm, cookie, s.now))
    case Start(realm, its, sid, hash) =>
      s.(store := Create(s.store, NewSession(realm, its, sid, s.now, cfg), hash, s.now), issued := s.issued + {hash})
    case Slide(realm, cookie) => s.(store := Touch(s.store, realm, cookie, s.now, cfg))
    case StepUp(realm, sid, m, cookie, hash) =>
      s.(store := Upgrade(s.store, realm, sid, m, cookie, hash, s.now), issued := s.issued + {hash})
    case End(realm, cookie) => s.(store := Revoke(s.store, realm, cookie, s.now))
  }

  // ---- invariant -----------------------------------------------------------------------------------

  /** The hot copy is the row, for every hot key present. */
  predicate HotOk(st: Store, k: HotKey)
    requires k in st.hot
  {
    var s := st.hot[k].session;
    Matches(st.rows, s.sid, k.realm, k.hash) && s == ToSession(s.sid, st.rows[s.sid])
  }

  predicate RowOk(s: State, sid: Sid, cfg: Config)
    requires sid in s.store.rows
  {
    var r := s.store.rows[sid];
    && r.hash in s.issued
    && r.authTime.Some? && r.authTime.value <= s.now
    && r.absoluteEnd == r.authTime.value + cfg.absolute * 1000
    && (r.aal == 2 ==> r.mfaAt.Some? && r.mfaAt.value <= s.now)
  }

  ghost predicate Inv(s: State, cfg: Config)
  {
    && UniqueHashes(s.store.rows)
    && (forall k | k in s.store.hot :: HotOk(s.store, k))
    && (forall sid | sid in s.store.rows :: RowOk(s, sid, cfg))
  }

  /** A load that never looks at Redis. */
  ghost function RowLoad(rows: map<Sid, Row>, realm: Realm, cookie: Option<Hash>, now: int): Option<Loaded>
  {
    Load(Store(map[], rows), realm, cookie, now)
  }

  lemma UniqueMatch(rows: map<Sid, Row>, realm: Realm, hash: Hash, sid: Sid)
    requires UniqueHashes(rows) && Matches(rows, sid, realm, hash)
    ensures FindRow(rows, realm, hash) == Some(ToSession(sid, rows[sid]))
  {
  }

  /** What a load answers is decided by the rows alone. */
  lemma LoadIsRowLoad(s: State, cfg: Config, realm: Realm, cookie: Option<Hash>)
    requires Inv(s, cfg)
    ensures Load(s.store, realm, cookie, s.now) == RowLoad(s.store.rows, realm, cookie, s.now)
  {
  }

  /** A loaded session is exactly one active, unexpired row. */
  lemma LoadedRow(s: State, cfg: Config, realm: Realm, cookie: Option<Hash>)
    requires Inv(s, cfg) && Load(s.store, realm, cookie, s.now).Some?
    ensures var l := Load(s.store, realm, cookie, s.now).value;
            && cookie == Some(l.hash)
            && Matches(s.store.rows, l.session.sid, realm, l.hash)
            && l.session == ToSession(l.session.sid, s.store.rows[l.session.sid])
            && Usable(l.session, realm, s.now)
  {
  }

  lemma AfterLoadKeeps(s: State, cfg: Config, realm: Realm, cookie: Option<Hash>)
    requires Inv(s, cfg)
    ensures var s' := s.(store := AfterLoad(s.store, realm, cookie, s.now));
            && Inv(s', cfg) && s'.store.rows == s.store.rows
            && Load(s'.store, realm, cookie, s.now) == Load(s.store, realm, cookie, s.now)
  {
  }

  lemma StartKeeps(s: State, st: Step, cfg: Config)
    requires Inv(s, cfg) && cfg.Valid() && st.Start? && Enabled(s, st)
    ensures Inv(Apply(s, st, cfg), cfg)
  {
    var s' := Apply(s, st, cfg);
    forall sid | sid in s'.store.rows ensures RowOk(s', sid, cfg) {
      if sid != st.sid { assert RowOk(s, sid, cfg); }
    }
    forall k | k in s'.store.hot ensures HotOk(s'.store, k) {
      if k in s.store.hot {
        assert HotOk(s.store, k);
        assert RowOk(s, s.store.hot[k].session.sid, cfg);
      }
    }
    forall a, b | a in s'.store.rows && b in s'.store.rows && a != b ensures s'.store.rows[a].hash != s'.store.rows[b].hash {
      if a != st.sid { assert RowOk(s, a, cfg); }
      if b != st.sid { assert RowOk(s, b, cfg); }
    }
  }

  /** The store a session operation works on once it has loaded its cookie. */
  ghost function Loading(s: State, realm: Realm, cookie: Option<Hash>): State
  {
    s.(store := AfterLoad(s.store, realm, cookie, s.now))
  }

  lemma SlideHot(s: State, st: Step, cfg: Config, k: HotKey)
    requires Inv(s, cfg) && cfg.Valid() && st.Slide? && Load(s.store, st.realm, st.cookie, s.now).Some?
    requires Inv(Loading(s, st.realm, st.cookie), cfg) && Loading(s, st.realm, st.cookie).store.rows == s.store.rows
    requires k in Apply(s, st, cfg).store.hot
    ensures HotOk(Apply(s, st, cfg).store, k)
  {
    var s1 := Loading(s, st.realm, st.cookie);
    LoadedRow(s, cfg, st.realm, st.cookie);
    if k != HotKey(st.realm, Load(s.store, st.realm, st.cookie, s.now).value.hash) { assert k in s1.store.hot && HotOk(s1.store, k); }
  }

  lemma SlideRow(s: State, st: Step, cfg: Config, sid: Sid)
    requires Inv(s, cfg) && cfg.Valid() && st.Slide? && Load(s.store, st.realm, st.cookie, s.now).Some?
    requires Loading(s, st.realm, st.cookie).store.rows == s.store.rows
    requires sid in Apply(s, st, cfg).store.rows
    ensures RowOk(Apply(s, st, cfg), sid, cfg)
    ensures sid in s.store.rows && Apply(s, st, cfg).store.rows[sid].hash == s.store.rows[sid].hash
  {
    assert RowOk(s, sid, cfg);
  }

  lemma SlideKeeps(s: State, st: Step, cfg: Config)
    requires Inv(s, cfg) && cfg.Valid() && st.Slide?
    ensures Inv(Apply(s, st, cfg), cfg)
  {
    var s' := Apply(s, st, cfg);
    AfterLoadKeeps(s, cfg, st.realm, st.cookie);
    if Load(s.store, st.realm, st.cookie, s.now).Some? {
      forall k | k in s'.store.hot ensures HotOk(s'.store, k) { SlideHot(s, st, cfg, k); }
      forall sid | sid in s'.store.rows
        ensures RowOk(s', sid, cfg) && sid in s.store.rows && s'.store.rows[sid].hash == s.store.rows[sid].hash
      {
        SlideRow(s, st, cfg, sid);
      }
    }
  }

  lemma StepUpHot(s: State, st: Step, cfg: Config, k: HotKey)
    requires Inv(s, cfg) && cfg.Valid() && st.StepUp? && Enabled(s, st)
    requires UpgradeAllowed(s.store, st.realm, st.sid, st.cookie, s.now)
    requires Inv(Loading(s, st.realm, st.cookie), cfg) && Loading(s, st.realm, st.cookie).store.rows == s.store.rows
    requires k in Apply(s, st, cfg).store.hot
    ensures HotOk(Apply(s, st, cfg).store, k)
  {
    var s1 := Loading(s, st.realm, st.cookie);
    LoadedRow(s, cfg, st.realm, st.cookie);
    if k != HotKey(st.realm, st.hash) {
      assert k != HotKey(st.realm, Load(s.store, st.realm, st.cookie, s.now).value.hash) && k in s1.store.hot && HotOk(s1.store, k);
    }
  }

  lemma StepUpRow(s: State, st: Step, cfg: Config, sid: Sid)
    requires Inv(s, cfg) && cfg.Valid() && st.StepUp? && Enabled(s, st)
    requires UpgradeAllowed(s.store, st.realm, st.sid, st.cookie, s.now)
    requires Loading(s, st.realm, st.cookie).store.rows == s.store.rows
    requires sid in Apply(s, st, cfg).store.rows
    ensures RowOk(Apply(s, st, cfg), sid, cfg)
    ensures sid in s.store.rows && Apply(s, st, cfg).store.rows[sid].hash == (if sid == st.sid then st.hash else s.store.rows[sid].hash)
  {
    assert RowOk(s, sid, cfg);
  }

  lemma StepUpUnique(s: State, st: Step, cfg: Config)
    requires Inv(s, cfg) && st.StepUp? && Enabled(s, st)
    requires forall sid | sid in Apply(s, st, cfg).store.rows ::
      sid in s.store.rows && Apply(s, st, cfg).store.rows[sid].hash == (if sid == st.sid then st.hash else s.store.rows[sid].hash)
    ensures UniqueHashes(Apply(s, st, cfg).store.rows)
  {
    var rows := Apply(s, st, cfg).store.rows;
    forall a, b | a in rows && b in rows && a != b ensures rows[a].hash != rows[b].hash {
      assert RowOk(s, a, cfg) && RowOk(s, b, cfg);
    }
  }

  lemma StepUpKeeps(s: State, st: Step, cfg: Config)
    requires Inv(s, cfg) && cfg.Valid() && st.StepUp? && Enabled(s, st)
    ensures Inv(Apply(s, st, cfg), cfg)
  {
    var s' := Apply(s, st, cfg);
    AfterLoadKeeps(s, cfg, st.realm, st.cookie);
    if UpgradeAllowed(s.store, st.realm, st.sid, st.cookie, s.now) {
      forall k | k in s'.store.hot ensures HotOk(s'.store, k) { StepUpHot(s, st, cfg, k); }
      forall sid | sid in s'.store.rows
        ensures RowOk(s', sid, cfg) && sid in s.store.rows
        ensures s'.store.rows[sid].hash == (if sid == st.sid then st.hash else s.store.rows[sid].hash)
      {
        StepUpRow(s, st, cfg, sid);
      }
      StepUpUnique(s, st, cfg);
    } else {
      var s1 := Loading(s, st.realm, st.cookie);
      forall sid | sid in s'.store.rows ensures RowOk(s', sid, cfg) { assert RowOk(s1, sid, cfg); }
      forall k | k in s'.store.hot ensures HotOk(s'.store, k) { assert HotOk(s1.store, k); }
    }
  }

  lemma EndKeeps(s: State, st: Step, cfg: Config)
    requires Inv(s, cfg) && st.End?
    ensures Inv(Apply(s, st, cfg), cfg)
  {
    AfterLoadKeeps(s, cfg, st.realm, st.cookie);
    var s1 := s.(store := AfterLoad(s.store, st.realm, st.cookie, s.now));
    var s' := Apply(s, st, cfg);
    if Load(s.store, st.realm, st.cookie, s.now).Some? {
      LoadedRow(s, cfg, st.realm, st.cookie);
    }
    forall k | k in s'.store.hot ensures HotOk(s'.store, k) { assert HotOk(s1.store, k); }
    forall sid | sid in s'.store.rows ensures RowOk(s', sid, cfg) { assert RowOk(s1, sid, cfg); }
  }

  lemma StepKeeps(s: State, st: Step, cfg: Config)
    requires Inv(s, cfg) && cfg.Valid() && Enabled(s, st)
    ensures Inv(Apply(s, st, cfg), cfg)
  {
    match st
    case Read(realm, cookie) => AfterLoadKeeps(s, cfg, realm, cookie);
    case Start(_, _, _, _) => StartKeeps(s, st, cfg);
    case Slide(_, _) => SlideKeeps(s, st, cfg);
    case StepUp(_, _, _, _, _) => StepUpKeeps(s, st, cfg);
    case End(_, _) => EndKeeps(s, st, cfg);
    case _ =>
      forall k | k in Apply(s, st, cfg).store.hot ensures HotOk(Apply(s, st, cfg).store, k) { assert HotOk(s.store, k); }
      forall sid | sid in s.store.rows ensures RowOk(Apply(s, st, cfg), sid, cfg) { assert RowOk(s, sid, cfg); }
  }

  // ---- runs ------------------------------------------------------------------------------------------

  ghost predicate IsRun(tr: seq<State>, steps: seq<Step>, cfg: Config)
  {
    && cfg.Valid()
    && |tr| == |steps| + 1
    && tr[0].store == Store(map[], map[])
    && forall i {:trigger Enabled(tr[i], steps[i])} | 0 <= i < |steps| ::
         Enabled(tr[i], steps[i]) && tr[i + 1] == Apply(tr[i], steps[i], cfg)
  }

  lemma RunStep(tr: seq<State>, steps: seq<Step>, cfg: Config, i: nat)
    requires IsRun(tr, steps, cfg) && i < |steps|
    ensures Enabled(tr[i], steps[i]) && tr[i + 1] == Apply(tr[i], steps[i], cfg)
  {
  }

  lemma {:induction false} Reachable(tr: seq<State>, steps: seq<Step>, cfg: Config, i: nat)
    requires IsRun(tr, steps, cfg) && i < |tr|
    ensures Inv(tr[i], cfg)
  {
    if i > 0 {
      Reachable(tr, steps, cfg, i - 1);
      RunStep(tr, steps, cfg, i - 1);
      StepKeeps(tr[i - 1], steps[i - 1], cfg);
    }
  }

  /** Over every run, with hot copies lost at any time, a load answers what auth_sessions alone would. */
  lemma HotCopyRefinesRow(tr: seq<State>, steps: seq<Step>, cfg: Config, i: nat, realm: Realm, cookie: Option<Hash>)
    requires IsRun(tr, steps, cfg) && i < |tr|
    ensures Load(tr[i].store, realm, cookie, tr[i].now) == RowLoad(tr[i].store.rows, realm, cookie, tr[i].now)
  {
    Reachable(tr, steps, cfg, i);
    LoadIsRowLoad(tr[i], cfg, realm, cookie);
  }

  /** At any time one session answers to at most one secret, in one realm. */
  lemma OneSecret(tr: seq<State>, steps: seq<Step>, cfg: Config, i: nat, r1: Realm, h1: Hash, r2: Realm, h2: Hash)
    requires IsRun(tr, steps, cfg) && i < |tr|
    requires Load(tr[i].store, r1, Some(h1), tr[i].now).Some? && Load(tr[i].store, r2, Some(h2), tr[i].now).Some?
    requires Load(tr[i].store, r1, Some(h1), tr[i].now).value.session.sid == Load(tr[i].store, r2, Some(h2), tr[i].now).value.session.sid
    ensures h1 == h2 && r1 == r2
  {
    Reachable(tr, steps, cfg, i);
    LoadedRow(tr[i], cfg, r1, Some(h1));
    LoadedRow(tr[i], cfg, r2, Some(h2));
  }

  /** Only create gives a session its member, realm and time of authentication. */
  lemma StepOrigin(s: State, st: Step, cfg: Config, sid: Sid)
    requires Enabled(s, st) && sid in Apply(s, st, cfg).store.rows
    ensures var row := Apply(s, st, cfg).store.rows[sid];
            || (st.Start? && st.sid == sid && row.authTime == Some(s.now) && row.realm == st.realm && row.itsId == st.itsId)
            || (sid in s.store.rows && s.store.rows[sid].authTime == row.authTime
                && s.store.rows[sid].realm == row.realm && s.store.rows[sid].itsId == row.itsId)
  {
  }

  /** The step that created a session. */
  lemma {:induction false} StartedBy(tr: seq<State>, steps: seq<Step>, cfg: Config, i: nat, sid: Sid) returns (n: nat)
    requires IsRun(tr, steps, cfg) && i < |tr| && sid in tr[i].store.rows
    ensures n < i && steps[n].Start? && steps[n].sid == sid
    ensures var row := tr[i].store.rows[sid];
            row.authTime == Some(tr[n].now) && row.realm == steps[n].realm && row.itsId == steps[n].itsId
  {
    RunStep(tr, steps, cfg, i - 1);
    StepOrigin(tr[i - 1], steps[i - 1], cfg, sid);
    if steps[i - 1].Start? && steps[i - 1].sid == sid {
      n := i - 1;
    } else {
      n := StartedBy(tr, steps, cfg, i - 1, sid);
    }
  }

  /**
   * What loads was created by an earlier step of this realm and member, less than
   * SESSION_ABSOLUTE_TTL_SECONDS ago on the clock, however often the session was touched since.
   */
  lemma AbsoluteExpiry(tr: seq<State>, steps: seq<Step>, cfg: Config, i: nat, realm: Realm, cookie: Option<Hash>) returns (n: nat)
    requires IsRun(tr, steps, cfg) && i < |tr| && Load(tr[i].store, realm, cookie, tr[i].now).Some?
    ensures var s := Load(tr[i].store, realm, cookie, tr[i].now).value.session;
            && n < i && steps[n].Start? && steps[n].sid == s.sid && steps[n].realm == s.realm == realm && steps[n].itsId == s.itsId
            && tr[n].now <= tr[i].now < tr[n].now + cfg.absolute * 1000
  {
    Reachable(tr, steps, cfg, i);
    LoadedRow(tr[i], cfg, realm, cookie);
    var l := Load(tr[i].store, realm, cookie, tr[i].now).value;
    assert RowOk(tr[i], l.session.sid, cfg);
    n := StartedBy(tr, steps, cfg, i, l.session.sid);
  }

  /** How one step changes the rows: it may add one, or rewrite the one row its own cookie loads. */
  lemma StepRows(s: State, st: Step, cfg: Config, sid: Sid)
    requires Inv(s, cfg) && cfg.Valid() && Enabled(s, st) && sid in Apply(s, st, cfg).store.rows
    ensures var s' := Apply(s, st, cfg);
            || (sid in s.store.rows && s'.store.rows[sid] == s.store.rows[sid])
            || (st.Start? && sid !in s.store.rows && s'.store.rows[sid].hash == st.hash && s'.store.rows[sid].realm == st.realm)
            || ((st.Slide? || st.StepUp? || st.End?)
                && Load(s.store, st.realm, st.cookie, s.now).Some?
                && Load(s.store, st.realm, st.cookie, s.now).value.session.sid == sid
                && sid in s.store.rows && s'.store.rows[sid].realm == s.store.rows[sid].realm == st.realm
                && (s'.store.rows[sid].hash == s.store.rows[sid].hash || (st.StepUp? && s'.store.rows[sid].hash == st.hash))
                && (s'.store.rows[sid].active ==> s.store.rows[sid].active))
  {
    if st.Read? || st.Slide? || st.StepUp? || st.End? {
      AfterLoadKeeps(s, cfg, st.realm, st.cookie);
      if Load(s.store, st.realm, st.cookie, s.now).Some? { LoadedRow(s, cfg, st.realm, st.cookie); }
    }
  }

  lemma StepStaysDead(s: State, st: Step, cfg: Config, realm: Realm, hash: Hash)
    requires Inv(s, cfg) && cfg.Valid() && Enabled(s, st)
    requires hash in s.issued && Load(s.store, realm, Some(hash), s.now).None?
    ensures Load(Apply(s, st, cfg).store, realm, Some(hash), Apply(s, st, cfg).now).None?
  {
    var s' := Apply(s, st, cfg);
    StepKeeps(s, st, cfg);
    LoadIsRowLoad(s, cfg, realm, Some(hash));
    LoadIsRowLoad(s', cfg, realm, Some(hash));
    var found := FindRow(s'.store.rows, realm, hash);
    if found.Some? {
      var sid := found.value.sid;
      StepRows(s, st, cfg, sid);
      assert Matches(s'.store.rows, sid, realm, hash);
      assert sid in s.store.rows;
      assert Matches(s.store.rows, sid, realm, hash);
      UniqueMatch(s.store.rows, realm, hash, sid);
      if s'.store.rows[sid] != s.store.rows[sid] {
        LoadedRow(s, cfg, st.realm, st.cookie);
        assert false;
      }
    }
  }

  /** A secret that once stopped loading (rotated, revoked, expired) never loads again. */
  lemma {:induction false} DeadForEver(tr: seq<State>, steps: seq<Step>, cfg: Config, i: nat, j: nat, realm: Realm, hash: Hash)
    requires IsRun(tr, steps, cfg) && i <= j < |tr|
    requires hash in tr[i].issued && Load(tr[i].store, realm, Some(hash), tr[i].now).None?
    ensures Load(tr[j].store, realm, Some(hash), tr[j].now).None?
    decreases j - i
  {
    if i < j {
      Reachable(tr, steps, cfg, i);
      StepStaysDead(tr[i], steps[i], cfg, realm, hash);
      DeadForEver(tr, steps, cfg, i + 1, j, realm, hash);
    }
  }

  function RealmOf(st: Step): Option<Realm>
  {
    match st
    case Wait(_) => None
    case Lose(_) => None
    case Read(r, _) => Some(r)
    case Start(r, _, _, _) => Some(r)
    case Slide(r, _) => Some(r)
    case StepUp(r, _, _, _, _) => Some(r)
    case End(r, _) => Some(r)
  }

  /** An operation in one realm changes no load result of the other. */
  lemma RealmsIsolated(tr: seq<State>, steps: seq<Step>, cfg: Config, i: nat, realm: Realm, cookie: Option<Hash>)
    requires IsRun(tr, steps, cfg) && i < |steps|
    requires RealmOf(steps[i]).Some? && RealmOf(steps[i]).value != realm
    ensures Load(tr[i + 1].store, realm, cookie, tr[i + 1].now) == Load(tr[i].store, realm, cookie, tr[i].now)
  {
    var s, st, s' := tr[i], steps[i], tr[i + 1];
    Reachable(tr, steps, cfg, i);
    Reachable(tr, steps, cfg, i + 1);
    LoadIsRowLoad(s, cfg, realm, cookie);
    LoadIsRowLoad(s', cfg, realm, cookie);
    if cookie.Some? {
      SameRealmRows(s, st, cfg, realm, cookie.value);
    }
  }

  lemma SameRealmRows(s: State, st: Step, cfg: Config, realm: Realm, hash: Hash)
    requires Inv(s, cfg) && cfg.Valid() && Enabled(s, st) && RealmOf(st).Some? && RealmOf(st).value != realm
    ensures FindRow(Apply(s, st, cfg).store.rows, realm, hash) == FindRow(s.store.rows, realm, hash)
  {
    var s' := Apply(s, st, cfg);
    StepKeeps(s, st, cfg);
    var before, after := FindRow(s.store.rows, realm, hash), FindRow(s'.store.rows, realm, hash);
    if before.Some? {
      RowsStay(s, st, cfg, before.value.sid);
      StepRows(s, st, cfg, before.value.sid);
      UniqueMatch(s'.store.rows, realm, hash, before.value.sid);
    } else if after.Some? {
      StepRows(s, st, cfg, after.value.sid);
      assert Matches(s.store.rows, after.value.sid, realm, hash);
    }
  }

  lemma RowsStay(s: State, st: Step, cfg: Config, sid: Sid)
    requires Inv(s, cfg) && sid in s.store.rows
    ensures sid in Apply(s, st, cfg).store.rows
  {
  }

  // ---- what each operation achieves ------------------------------------------------------------------

  /** After create, the new secret loads the new AAL1 session. */
  lemma StartLoads(s: State, st: Step, cfg: Config)
    requires Inv(s, cfg) && cfg.Valid() && st.Start? && Enabled(s, st)
    ensures Load(Apply(s, st, cfg).store, st.realm, Some(st.hash), s.now)
         == Some(Loaded(Session(st.sid, st.itsId, st.realm, 1, [Pwd], s.now, None, None,
                                s.now + 1000 * cfg.idle, s.now + 1000 * cfg.absolute), st.hash))
  {
  }

  /** After MFA the old secret is dead, and the new one loads the same session at AAL2, verified now. */
  lemma StepUpRotates(s: State, st: Step, cfg: Config)
    requires Inv(s, cfg) && cfg.Valid() && st.StepUp? && Enabled(s, st)
    requires Load(s.store, st.realm, st.cookie, s.now).Some?
    ensures var s', before := Apply(s, st, cfg), Load(s.store, st.realm, st.cookie, s.now).value.session;
            if before.sid == st.sid then
              && Load(s'.store, st.realm, st.cookie, s.now).None?
              && Load(s'.store, st.realm, Some(st.hash), s.now)
                 == Some(Loaded(before.(aal := 2, amr := [Pwd, Otp], mfaAt := Some(s.now), mfaMethod := Some(st.m)), st.hash))
            else
              && Load(s'.store, st.realm, Some(st.hash), s.now).None?
              && Load(s'.store, st.realm, st.cookie, s.now) == Load(s.store, st.realm, st.cookie, s.now)
  {
    if Load(s.store, st.realm, st.cookie, s.now).value.session.sid != st.sid { RefusedKeeps(s, st, cfg); }
  }

  /** An upgrade for another session than the cookie's changes nothing. */
  lemma RefusedKeeps(s: State, st: Step, cfg: Config)
    requires Inv(s, cfg) && cfg.Valid() && st.StepUp? && Enabled(s, st)
    requires !UpgradeAllowed(s.store, st.realm, st.sid, st.cookie, s.now)
    ensures Load(Apply(s, st, cfg).store, st.realm, st.cookie, s.now) == Load(s.store, st.realm, st.cookie, s.now)
    ensures Load(Apply(s, st, cfg).store, st.realm, Some(st.hash), s.now).None?
  {
    AfterLoadKeeps(s, cfg, st.realm, st.cookie);
    var s1 := Loading(s, st.realm, st.cookie);
    LoadIsRowLoad(s1, cfg, st.realm, Some(st.hash));
    forall sid | sid in s1.store.rows ensures s1.store.rows[sid].hash != st.hash { assert RowOk(s1, sid, cfg); }
    assert FindRow(s1.store.rows, st.realm, st.hash).None?;
  }

  /** After revoke the cookie loads nothing. */
  lemma EndKills(s: State, st: Step, cfg: Config)
    requires Inv(s, cfg) && cfg.Valid() && st.End?
    ensures Load(Apply(s, st, cfg).store, st.realm, st.cookie, s.now).None?
  {
  }

  /** After touch the same cookie loads the same session, its idle end slid but never past the absolute end. */
  lemma SlideSlides(s: State, st: Step, cfg: Config)
    requires Inv(s, cfg) && cfg.Valid() && st.Slide?
    requires Load(s.store, st.realm, st.cookie, s.now).Some?
    ensures var l := Load(s.store, st.realm, st.cookie, s.now).value;
            Load(Apply(s, st, cfg).store, st.realm, st.cookie, s.now)
            == Some(l.(session := l.session.(idleEnd := if s.now + 1000 * cfg.idle <= l.session.absoluteEnd
                                                        then s.now + 1000 * cfg.idle else l.session.absoluteEnd)))
  {
  }

  /** Whatever a session operation loads or issues is in the cache afterwards, until the next whole second after its end. */
  predicate Cached(s: State, realm: Realm, hash: Hash, session: Session)
  {
    var k := HotKey(realm, hash);
    k in s.store.hot && s.now < s.store.hot[k].until && s.store.hot[k].session == session
  }

  lemma OperationsCache(s: State, st: Step, cfg: Config)
    requires Inv(s, cfg) && cfg.Valid() && Enabled(s, st)
    ensures st.Start? ==>
      Cached(Apply(s, st, cfg), st.realm, st.hash,
             Session(st.sid, st.itsId, st.realm, 1, [Pwd], s.now, None, None, s.now + 1000 * cfg.idle, s.now + 1000 * cfg.absolute))
    ensures st.Read? && Load(s.store, st.realm, st.cookie, s.now).Some? ==>
      Cached(Apply(s, st, cfg), st.realm, st.cookie.value, Load(s.store, st.realm, st.cookie, s.now).value.session)
    ensures st.Slide? && Load(s.store, st.realm, st.cookie, s.now).Some? ==>
      Cached(Apply(s, st, cfg), st.realm, st.cookie.value, Load(Apply(s, st, cfg).store, st.realm, st.cookie, s.now).value.session)
  {
  }

  /** After revoke the row is no longer ACTIVE and the hot copy is gone. */
  lemma EndCloses(s: State, st: Step, cfg: Config)
    requires Inv(s, cfg) && cfg.Valid() && st.End? && Load(s.store, st.realm, st.cookie, s.now).Some?
    ensures var s', sid := Apply(s, st, cfg), Load(s.store, st.realm, st.cookie, s.now).value.session.sid;
      HotKey(st.realm, st.cookie.value) !in s'.store.hot && sid in s'.store.rows && !s'.store.rows[sid].active
  {
    AfterLoadKeeps(s, cfg, st.realm, st.cookie);
    LoadedRow(s, cfg, st.realm, st.cookie);
  }

  // ---- how long a session lives ----------------------------------------------------------------------

  /** A cookie loads exactly while an ACTIVE row of this realm has its secret and neither end has come. */
  lemma LoadsIff(s: State, cfg: Config, realm: Realm, cookie: Option<Hash>)
    requires Inv(s, cfg)
    ensures Load(s.store, realm, cookie, s.now).Some? <==>
              exists sid | sid in s.store.rows ::
                && s.store.rows[sid].active && s.store.rows[sid].realm == realm && cookie == Some(s.store.rows[sid].hash)
                && s.now < s.store.rows[sid].expiresAt && s.now < s.store.rows[sid].absoluteEnd
  {
    LoadIsRowLoad(s, cfg, realm, cookie);
    if Load(s.store, realm, cookie, s.now).Some? { LoadedRow(s, cfg, realm, cookie); }
    if sid :| sid in s.store.rows && s.store.rows[sid].active && s.store.rows[sid].realm == realm && cookie == Some(s.store.rows[sid].hash)
              && s.now < s.store.rows[sid].expiresAt && s.now < s.store.rows[sid].absoluteEnd
    {
      UniqueMatch(s.store.rows, realm, cookie.value, sid);
    }
  }

  /** The step uses this cookie to change the session: touch, upgrade or revoke. */
  predicate Changes(st: Step, realm: Realm, hash: Hash)
  {
    (st.Slide? || st.StepUp? || st.End?) && st.realm == realm && st.cookie == Some(hash)
  }

  lemma OthersKeepRow(s: State, st: Step, cfg: Config, sid: Sid)
    requires Inv(s, cfg) && cfg.Valid() && Enabled(s, st) && sid in s.store.rows
    requires !Changes(st, s.store.rows[sid].realm, s.store.rows[sid].hash)
    ensures sid in Apply(s, st, cfg).store.rows && Apply(s, st, cfg).store.rows[sid] == s.store.rows[sid]
  {
    KeepsSid(s, st, cfg, sid);
    StepRows(s, st, cfg, sid);
    if st.Slide? || st.StepUp? || st.End? {
      if Load(s.store, st.realm, st.cookie, s.now).Some? { LoadedRow(s, cfg, st.realm, st.cookie); }
    }
  }

  lemma KeepsSid(s: State, st: Step, cfg: Config, sid: Sid)
    requires Enabled(s, st) && sid in s.store.rows
    ensures sid in Apply(s, st, cfg).store.rows
  {
  }

  /** The row is as `create` wrote it. */
  predicate AsCreated(s: State, st: Step, at: int, cfg: Config)
    requires st.Start?
  {
    && st.sid in s.store.rows
    && var row := s.store.rows[st.sid];
      && row.active && row.realm == st.realm && row.hash == st.hash && row.itsId == st.itsId && row.aal == 1
      && row.expiresAt == at + 1000 * cfg.idle && row.absoluteEnd == at + 1000 * cfg.absolute
  }

  lemma StartWrites(s: State, st: Step, cfg: Config)
    requires st.Start? && Enabled(s, st)
    ensures AsCreated(Apply(s, st, cfg), st, s.now, cfg)
  {
  }

  lemma {:induction false} RowUntouched(tr: seq<State>, steps: seq<Step>, cfg: Config, n: nat, i: nat)
    requires IsRun(tr, steps, cfg) && n < i < |tr| && steps[n].Start?
    requires forall m | n < m < i :: !Changes(steps[m], steps[n].realm, steps[n].hash)
    ensures AsCreated(tr[i], steps[n], tr[n].now, cfg)
    decreases i
  {
    RunStep(tr, steps, cfg, i - 1);
    if n == i - 1 {
      StartWrites(tr[n], steps[n], cfg);
    } else {
      RowUntouched(tr, steps, cfg, n, i - 1);
      Reachable(tr, steps, cfg, i - 1);
      OthersKeepRow(tr[i - 1], steps[i - 1], cfg, steps[n].sid);
    }
  }

  /**
   * A session that is neither touched, upgraded nor revoked loads by its secret, at AAL1 and for its
   * member, until SESSION_IDLE_TTL_SECONDS or SESSION_ABSOLUTE_TTL_SECONDS after it was created, whichever
   * is shorter, and not from then on.
   */
  lemma LoadsUntilIdle(tr: seq<State>, steps: seq<Step>, cfg: Config, n: nat, i: nat)
    requires IsRun(tr, steps, cfg) && n < i < |tr| && steps[n].Start?
    requires forall m | n < m < i :: !Changes(steps[m], steps[n].realm, steps[n].hash)
    ensures var l := Load(tr[i].store, steps[n].realm, Some(steps[n].hash), tr[i].now);
      && (l.Some? <==> tr[i].now < tr[n].now + 1000 * cfg.idle && tr[i].now < tr[n].now + 1000 * cfg.absolute)
      && (l.Some? ==> l.value.session.sid == steps[n].sid && l.value.session.itsId == steps[n].itsId && l.value.session.aal == 1)
  {
    RowUntouched(tr, steps, cfg, n, i);
    Reachable(tr, steps, cfg, i);
    var realm, hash, sid := steps[n].realm, steps[n].hash, steps[n].sid;
    LoadsIff(tr[i], cfg, realm, Some(hash));
    UniqueMatch(tr[i].store.rows, realm, hash, sid);
    if Load(tr[i].store, realm, Some(hash), tr[i].now).Some? { LoadedRow(tr[i], cfg, realm, Some(hash)); }
  }

  /** Only create and touch set the idle end. */
  lemma StepIdle(s: State, st: Step, cfg: Config, sid: Sid)
    requires Inv(s, cfg) && cfg.Valid() && Enabled(s, st) && sid in Apply(s, st, cfg).store.rows
    ensures var row := Apply(s, st, cfg).store.rows[sid];
      || (sid in s.store.rows && row.expiresAt == s.store.rows[sid].expiresAt)
      || (SetsIdle(s, st, sid) && row.expiresAt <= s.now + 1000 * cfg.idle)
  {
    if st.Read? || st.Slide? || st.StepUp? || st.End? { AfterLoadKeeps(s, cfg, st.realm, st.cookie); }
  }

  /** The step creates the session, or touches it with a cookie that loads it. */
  ghost predicate SetsIdle(s: State, st: Step, sid: Sid)
  {
    || (st.Start? && st.sid == sid)
    || (st.Slide? && Load(s.store, st.realm, st.cookie, s.now).Some? && Load(s.store, st.realm, st.cookie, s.now).value.session.sid == sid)
  }

  lemma {:induction false} LastSet(tr: seq<State>, steps: seq<Step>, cfg: Config, i: nat, sid: Sid) returns (n: nat)
    requires IsRun(tr, steps, cfg) && i < |tr| && sid in tr[i].store.rows
    ensures n < i && SetsIdle(tr[n], steps[n], sid) && tr[i].store.rows[sid].expiresAt <= tr[n].now + 1000 * cfg.idle
  {
    RunStep(tr, steps, cfg, i - 1);
    Reachable(tr, steps, cfg, i - 1);
    StepIdle(tr[i - 1], steps[i - 1], cfg, sid);
    if sid in tr[i - 1].store.rows && tr[i - 1].store.rows[sid].expiresAt == tr[i].store.rows[sid].expiresAt {
      n := LastSet(tr, steps, cfg, i - 1, sid);
    } else {
      n := i - 1;
    }
  }

  /** What loads was created or touched less than SESSION_IDLE_TTL_SECONDS ago. */
  lemma IdleExpiry(tr: seq<State>, steps: seq<Step>, cfg: Config, i: nat, realm: Realm, cookie: Option<Hash>) returns (n: nat)
    requires IsRun(tr, steps, cfg) && i < |tr| && Load(tr[i].store, realm, cookie, tr[i].now).Some?
    ensures n < i && SetsIdle(tr[n], steps[n], Load(tr[i].store, realm, cookie, tr[i].now).value.session.sid)
    ensures tr[i].now < tr[n].now + 1000 * cfg.idle
  {
    Reachable(tr, steps, cfg, i);
    LoadedRow(tr[i], cfg, realm, cookie);
    n := LastSet(tr, steps, cfg, i, Load(tr[i].store, realm, cookie, tr[i].now).value.session.sid);
  }
}
