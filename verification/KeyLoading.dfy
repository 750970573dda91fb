/**
 * What the service does with the keys of a store: filter, order, sign, publish, and the metadata rows
 * it keeps about them.
 */
module KeyLoading {
  import opened Common
  import opened Keys

  // ---- the loader -----------------------------------------------------------------------------------

  predicate Usable(k: Key)
  {
    !k.status.Retired? && !k.revoked
  }

  function UsableOf(keys: Store): (r: Store)
    ensures forall k :: k in r <==> k in keys && Usable(k)
  {
    if keys == [] then [] else (if Usable(keys[0]) then [keys[0]] else []) + UsableOf(keys[1..])
  }

  /** The loader's order: ACTIVE, NEXT, RETIRING, RETIRED. */
  function Order(s: Status): nat
  {
    match s
    case Active => 0
    case Next => 1
    case Retiring => 2
    case Retired => 3
  }

  function Inserted(k: Key, s: Store): Store
  {
    if s == [] || Order(k.status) <= Order(s[0].status) then [k] + s else [s[0]] + Inserted(k, s[1..])
  }

  /** A stable sort by the loader's order. */
  function SortedByOrder(keys: Store): Store
  {
    if keys == [] then [] else Inserted(keys[0], SortedByOrder(keys[1..]))
  }

  function ActiveCount(keys: Store): nat
  {
    if keys == [] then 0 else (if keys[0].status.Active? then 1 else 0) + ActiveCount(keys[1..])
  }

  ghost predicate Ordered(s: Store)
  {
    forall i, j :: 0 <= i < j < |s| ==> Order(s[i].status) <= Order(s[j].status)
  }

  lemma {:induction false} InsertedKeys(k: Key, s: Store)
    ensures multiset(Inserted(k, s)) == multiset(s) + multiset{k}
    ensures forall x :: x in Inserted(k, s) ==> x == k || x in s
  {
    if s != [] && Order(k.status) > Order(s[0].status) {
      InsertedKeys(k, s[1..]);
      assert s == [s[0]] + s[1..];
    }
  }

  lemma {:induction false} InsertedOrdered(k: Key, s: Store)
    requires Ordered(s)
    ensures Ordered(Inserted(k, s))
  {
    if s != [] && Order(k.status) > Order(s[0].status) {
      var r := Inserted(k, s[1..]);
      InsertedOrdered(k, s[1..]);
      InsertedKeys(k, s[1..]);
      forall i | 0 <= i < |r| ensures Order(s[0].status) <= Order(r[i].status) {
        assert r[i] in r;
      }
      Prepended(s[0], r);
    }
  }

  lemma {:induction false} Prepended(k: Key, s: Store)
    requires Ordered(s) && forall i :: 0 <= i < |s| ==> Order(k.status) <= Order(s[i].status)
    ensures Ordered([k] + s)
  {
  }

  /** Sorting keeps every key, as often as it was there, and orders them. */
  lemma {:induction false} SortOk(keys: Store)
    ensures Ordered(SortedByOrder(keys)) && multiset(SortedByOrder(keys)) == multiset(keys)
  {
    if keys != [] {
      SortOk(keys[1..]);
      InsertedOrdered(keys[0], SortedByOrder(keys[1..]));
      InsertedKeys(keys[0], SortedByOrder(keys[1..]));
      assert keys == [keys[0]] + keys[1..];
    }
  }

  /** The keys of one status in their order in the list. */
  function OfStatus(keys: Store, s: Status): Store
  {
    if keys == [] then [] else (if keys[0].status == s then [keys[0]] else []) + OfStatus(keys[1..], s)
  }

  function IfStatus(k: Key, st: Status): Store
  {
    if k.status == st then [k] else []
  }

  lemma {:induction false} HeadOfStatus(k: Key, s: Store, st: Status)
    ensures OfStatus([k] + s, st) == IfStatus(k, st) + OfStatus(s, st)
  {
    assert ([k] + s)[1..] == s;
  }

  lemma {:induction false} Passes(a: Store, b: Store, c: Store)
    requires a == [] || b == []
    ensures a + (b + c) == b + (a + c)
  {
    if a == [] {
      assert a + (b + c) == b + c && a + c == c;
    } else {
      assert b + c == c && b + (a + c) == a + c;
    }
  }

  lemma {:induction false} InsertedKeepsOrder(k: Key, s: Store, st: Status)
    requires Ordered(s)
    ensures OfStatus(Inserted(k, s), st) == IfStatus(k, st) + OfStatus(s, st)
  {
    if s == [] || Order(k.status) <= Order(s[0].status) {
      HeadOfStatus(k, s, st);
    } else {
      InsertedKeepsOrder(k, s[1..], st);
      HeadOfStatus(s[0], Inserted(k, s[1..]), st);
      Passes(IfStatus(s[0], st), IfStatus(k, st), OfStatus(s[1..], st));
    }
  }

  /** Keys of one status stay in the order of the store. */
  lemma {:induction false} SortIsStable(keys: Store, st: Status)
    ensures OfStatus(SortedByOrder(keys), st) == OfStatus(keys, st)
  {
    if keys != [] {
      SortOk(keys[1..]);
      SortIsStable(keys[1..], st);
      InsertedKeepsOrder(keys[0], SortedByOrder(keys[1..]), st);
    }
  }

  lemma {:induction false} CountIsLength(keys: Store)
    ensures ActiveCount(keys) == |OfStatus(keys, Active)|
  {
    if keys != [] { CountIsLength(keys[1..]); }
  }

  /** The keys in signing order, or the number of ACTIVE ones when that is not one. */
  function Load(keys: Store): Result<Store, nat>
  {
    var usable := SortedByOrder(UsableOf(keys));
    if ActiveCount(usable) == 1 then Ok(usable) else Err(ActiveCount(usable))
  }

  lemma {:induction false} SameActiveCount(keys: Store)
    ensures ActiveCount(SortedByOrder(keys)) == ActiveCount(keys)
  {
    CountIsLength(keys);
    CountIsLength(SortedByOrder(keys));
    SortIsStable(keys, Active);
  }

  lemma {:induction false} UsableActive(keys: Store)
    requires forall i :: 0 <= i < |keys| && keys[i].revoked ==> keys[i].status.Retired?
    ensures ActiveCount(UsableOf(keys)) == ActiveCount(keys)
  {
    if keys != [] {
      UsableActive(keys[1..]);
      var head := if Usable(keys[0]) then [keys[0]] else [];
      if Usable(keys[0]) { assert (head + UsableOf(keys[1..]))[1..] == UsableOf(keys[1..]); }
      else { assert head + UsableOf(keys[1..]) == UsableOf(keys[1..]); }
    }
  }

  lemma {:induction false} CountOfOne(keys: Store)
    requires AtMostOneActive(keys)
    ensures ActiveCount(keys) <= 1
    ensures ActiveCount(keys) == 1 <==> ExactlyOneActive(keys)
  {
    if keys != [] {
      var rest := keys[1..];
      assert forall i :: 0 <= i < |rest| ==> rest[i] == keys[i + 1];
      CountOfOne(rest);
      if ActiveCount(rest) == 1 {
        var i :| 0 <= i < |rest| && rest[i].status.Active?;
        assert keys[i + 1].status.Active?;
      }
      if i :| 0 <= i < |keys| && keys[i].status.Active? {
        if i > 0 { assert rest[i - 1].status.Active?; }
      }
    }
  }

  /**
   * For every store the commands can reach, loading succeeds exactly when one key is ACTIVE. Then the
   * first loaded key is that key, and what is loaded is every key that is neither RETIRED nor revoked.
   */
  lemma {:induction false} LoadsActiveFirst(keys: Store)
    requires Inv(keys)
    ensures Load(keys).Ok? <==> ExactlyOneActive(keys)
    ensures Load(keys).Ok? ==>
      && Load(keys).value != [] && Load(keys).value[0].status.Active? && Load(keys).value[0] in keys
      && (forall i :: 0 < i < |Load(keys).value| ==> !Load(keys).value[i].status.Active?)
      && (forall k :: k in Load(keys).value <==> k in keys && !k.status.Retired? && !k.revoked)
  {
    var usable := UsableOf(keys);
    SortOk(usable);
    SameActiveCount(usable);
    UsableActive(keys);
    CountOfOne(keys);
    if Load(keys).Ok? {
      var s := Load(keys).value;
      FirstIsActive(s);
      forall k ensures k in s <==> k in usable {
        assert k in s <==> k in multiset(s);
        assert k in usable <==> k in multiset(usable);
      }
    }
  }

  lemma {:induction false} FirstIsActive(s: Store)
    requires Ordered(s) && ActiveCount(s) == 1
    ensures s != [] && s[0].status.Active?
    ensures forall i :: 0 < i < |s| ==> !s[i].status.Active?
  {
    if !s[0].status.Active? {
      AllLater(s);
    } else {
      NoneLeft(s[1..]);
      assert forall i :: 0 < i < |s| ==> s[i] == s[1..][i - 1];
    }
  }

  /** Of the loaded keys the NEXT ones come before the RETIRING ones. */
  lemma {:induction false} RetiringLast(keys: Store, i: nat, j: nat)
    requires Inv(keys) && Load(keys).Ok? && i < j < |Load(keys).value| && Load(keys).value[i].status == Retiring
    ensures Load(keys).value[j].status == Retiring
  {
    var s := Load(keys).value;
    LoadsActiveFirst(keys);
    SortOk(UsableOf(keys));
    assert s[j] in s;
    assert Order(s[i].status) <= Order(s[j].status);
  }

  lemma {:induction false} AllLater(s: Store)
    requires s != [] && Ordered(s) && !s[0].status.Active?
    ensures ActiveCount(s) == 0
  {
    forall i | 0 <= i < |s| ensures !s[i].status.Active? {
      if i > 0 { assert Order(s[0].status) <= Order(s[i].status); }
    }
    NoneCounted(s);
  }

  lemma {:induction false} NoneCounted(s: Store)
    requires forall i :: 0 <= i < |s| ==> !s[i].status.Active?
    ensures ActiveCount(s) == 0
  {
    if s != [] { NoneCounted(s[1..]); }
  }

  lemma {:induction false} NoneLeft(s: Store)
    requires ActiveCount(s) == 0
    ensures forall i :: 0 <= i < |s| ==> !s[i].status.Active?
  {
    if s != [] {
      NoneLeft(s[1..]);
      assert forall i :: 0 < i < |s| ==> s[i] == s[1..][i - 1];
    }
  }

  // ---- the service ----------------------------------------------------------------------------------

  class SigningKeyService {
    var active: Option<Kid>
    var published: seq<Kid>

    /** The key that signs is the first of the published ones. */
    ghost predicate Valid()
      reads this
    {
      active == if published == [] then None else Some(published[0])
    }

    constructor ()
      ensures Valid() && active == None && published == []
    {
      active, published := None, [];
    }

    /** A refused store leaves the service as it was. */
    method LoadForProvider(keys: Store) returns (r: Result<Store, nat>)
      requires Valid()
      modifies this
      ensures Valid() && r == Load(keys)
      ensures r.Ok? ==> published == Kids(r.value) && r.value != [] && active == Some(r.value[0].kid)
      ensures r.Err? ==> active == old(active) && published == old(published)
    {
      var usable := SortedByOrder(UsableOf(keys));
      if ActiveCount(usable) != 1 { return Err(ActiveCount(usable)); }
      active := Some(usable[0].kid);
      published := Kids(usable);
      return Ok(usable);
    }

    /** The kid in the header of a signed assertion, or an error when no keys are loaded. */
    method SignJws() returns (kid: Option<Kid>)
      requires Valid()
      ensures kid.None? <==> published == []
      ensures kid.Some? ==> kid.value == published[0]
    {
      kid := active;
    }
  }

  function Kids(s: Store): (r: seq<Kid>)
    ensures |r| == |s| && forall i :: 0 <= i < |s| ==> r[i] == s[i].kid
  {
    seq(|s|, i requires 0 <= i < |s| => s[i].kid)
  }

  // ---- publication over a run -----------------------------------------------------------------------

  /** The key would be in the JWKS of a service started on this store. */
  ghost predicate Published(keys: Store, kid: Kid)
  {
    exists i :: 0 <= i < |keys| && keys[i].kid == kid && Usable(keys[i])
  }

  /** The key would sign. */
  ghost predicate Signs(keys: Store, kid: Kid)
  {
    Load(keys).Ok? && Load(keys).value[0].kid == kid
  }

  lemma {:induction false} SignerIsPublished(keys: Store, kid: Kid)
    requires Inv(keys) && Load(keys).Ok? && Load(keys).value != [] && Signs(keys, kid)
    ensures Published(keys, kid)
  {
    LoadsActiveFirst(keys);
    var k := Load(keys).value[0];
    assert k in Load(keys).value;
    var i :| 0 <= i < |keys| && keys[i] == k;
  }

  /** A key of the store that is not published now is not published in any later store. */
  lemma {:induction false} GoneStaysGone(tr: seq<Store>, steps: seq<Step>, i: nat, j: nat, kid: Kid)
    requires IsRun(tr, steps) && i <= j < |tr|
    requires Has(tr[i], kid) && !Published(tr[i], kid)
    ensures !Published(tr[j], kid)
  {
    RankNeverGoesBack(tr, steps, i, j);
    NeverTwoActive(tr, steps, j);
    NeverTwoActive(tr, steps, i);
    var a :| 0 <= a < |tr[i]| && tr[i][a].kid == kid;
    assert !Usable(tr[i][a]);
    assert Rank(tr[i][a].status) <= Rank(tr[j][a].status);
    forall b | 0 <= b < |tr[j]| && tr[j][b].kid == kid ensures !Usable(tr[j][b]) {
      SamePlace(tr[j], a, b);
    }
  }

  lemma {:induction false} SamePlace(keys: Store, a: int, b: int)
    requires Distinct(keys) && 0 <= a < |keys| && 0 <= b < |keys| && keys[a].kid == keys[b].kid
    ensures a == b
  {
  }

  /** The write takes the key out of the published ones. */
  predicate TakesOut(w: Write, kid: Kid)
  {
    w.SetStatus? && w.kid == kid && (w.status.Retired? || w.revoke)
  }

  /** A usable key stays where it is and usable when no write takes it out. */
  lemma {:induction false} StaysUsable(keys: Store, ws: seq<Write>, i: nat)
    requires i < |keys| && Usable(keys[i]) && forall n :: 0 <= n < |ws| ==> !TakesOut(ws[n], keys[i].kid)
    ensures i < |WrittenAll(keys, ws)| && WrittenAll(keys, ws)[i].kid == keys[i].kid && Usable(WrittenAll(keys, ws)[i])
    decreases |ws|
  {
    if ws != [] {
      assert !TakesOut(ws[0], keys[i].kid);
      assert forall n :: 0 <= n < |ws| - 1 ==> ws[1..][n] == ws[n + 1];
      StaysUsable(Written(keys, ws[0]), ws[1..], i);
    }
  }

  /** Only retire and revoke take a key out, and only the one they name. */
  lemma {:induction false} TakenOutBy(keys: Store, c: Command, newKid: Kid, n: nat, kid: Kid)
    requires Plan(keys, c, newKid).Ok? && n < |Plan(keys, c, newKid).value|
    requires TakesOut(Plan(keys, c, newKid).value[n], kid)
    ensures c == Retire(kid) || c == Revoke(kid)
  {
  }

  /** A published key is still published after any part of a command that neither retires nor revokes it. */
  lemma {:induction false} LeavesByCommand(keys: Store, st: Step, kid: Kid)
    requires Enabled(keys, st) && Published(keys, kid)
    requires st.c != Retire(kid) && st.c != Revoke(kid)
    ensures Published(Executed(keys, st.c, st.newKid, st.done), kid)
  {
    var ws := Plan(keys, st.c, st.newKid).value[..st.done];
    var i :| 0 <= i < |keys| && keys[i].kid == kid && Usable(keys[i]);
    forall n | 0 <= n < |ws| ensures !TakesOut(ws[n], kid) {
      if TakesOut(ws[n], kid) { TakenOutBy(keys, st.c, st.newKid, n, kid); }
    }
    StaysUsable(keys, ws, i);
  }

  /**
   * A key that a service signed with stays published in every later store until it is retired or
   * revoked by name.
   */
  lemma {:induction false} SignerStaysPublished(tr: seq<Store>, steps: seq<Step>, i: nat, j: nat, kid: Kid)
    requires IsRun(tr, steps) && i <= j < |tr| && Signs(tr[i], kid)
    requires forall k :: i <= k < j ==> steps[k].c != Retire(kid) && steps[k].c != Revoke(kid)
    ensures Published(tr[j], kid)
    decreases j
  {
    if i == j {
      NeverTwoActive(tr, steps, i);
      LoadsActiveFirst(tr[i]);
      SignerIsPublished(tr[i], kid);
    } else {
      SignerStaysPublished(tr, steps, i, j - 1, kid);
      assert tr[j - 1 + 1] == Executed(tr[j - 1], steps[j - 1].c, steps[j - 1].newKid, steps[j - 1].done);
      LeavesByCommand(tr[j - 1], steps[j - 1], kid);
    }
  }

  // ---- the metadata rows ----------------------------------------------------------------------------

  /** A row of signing_key_metadata; `kms` tells whether its provider reference is a KMS one. */
  datatype Meta = Meta(
    status: Status, kms: bool, environment: nat,
    firstSeenAt: int, statusChangedAt: int, activatedAt: Option<int>, revokedAt: Option<int>)

  /** `revokedAt` is None when the caller leaves it out, Some(None) when it passes null. */
  datatype Input = Input(kid: Kid, status: Status, kms: bool, environment: nat, revokedAt: Option<Option<int>>)

  function Upserted(rows: map<Kid, Meta>, k: Input, now: int): map<Kid, Meta>
  {
    var row := if k.kid in rows then rows[k.kid] else Meta(k.status, k.kms, k.environment, now, now, None, None);
    rows[k.kid := Meta(
      k.status, k.kms, k.environment, row.firstSeenAt,
      if k.kid in rows && row.status != k.status then now else row.statusChangedAt,
      if k.status.Active? && row.activatedAt.None? then Some(now) else row.activatedAt,
      if k.revokedAt.Some? && k.revokedAt.value.Some? then k.revokedAt.value else row.revokedAt)]
  }

  /** An update of a missing row does nothing. */
  function StatusSet(rows: map<Kid, Meta>, kid: Kid, status: Status, revokedAt: Option<int>, now: int): map<Kid, Meta>
  {
    if kid !in rows then rows
    else
      var row := rows[kid];
      rows[kid := row.(status := status, statusChangedAt := now,
                       activatedAt := if status.Active? then Some(now) else row.activatedAt,
                       revokedAt := if revokedAt.Some? then revokedAt else row.revokedAt)]
  }

  predicate PublishableKms(rows: map<Kid, Meta>, environment: nat, kid: Kid)
  {
    kid in rows && rows[kid].kms && rows[kid].environment == environment && !rows[kid].status.Retired? && rows[kid].revokedAt.None?
  }

  class SigningKeyRepository {
    var rows: map<Kid, Meta>

    constructor ()
      ensures rows == map[]
    {
      rows := map[];
    }

    method Upsert(k: Input, now: int)
      modifies this
      ensures rows == Upserted(old(rows), k, now)
      ensures rows.Keys == old(rows.Keys) + {k.kid} && forall kid | kid in old(rows) && kid != k.kid :: rows[kid] == old(rows)[kid]
      ensures var row := rows[k.kid];
              && row.status == k.status && row.kms == k.kms && row.environment == k.environment
              && (k.kid !in old(rows) ==>
                    && row.firstSeenAt == row.statusChangedAt == now
                    && row.activatedAt == (if k.status == Active then Some(now) else None)
                    && row.revokedAt == k.revokedAt.GetOr(None))
              && (k.kid in old(rows) ==>
                    var was := old(rows)[k.kid];
                    && row.firstSeenAt == was.firstSeenAt
                    && row.statusChangedAt == (if was.status == k.status then was.statusChangedAt else now)
                    && row.activatedAt == (if was.activatedAt.None? && k.status == Active then Some(now) else was.activatedAt)
                    && row.revokedAt == (if k.revokedAt.GetOr(None).Some? then k.revokedAt.value else was.revokedAt))
    {
      var existing := if k.kid in rows then Some(rows[k.kid]) else None;
      var row := existing.GetOr(Meta(k.status, k.kms, k.environment, now, now, None, None));
      if existing.Some? && existing.value.status != k.status { row := row.(statusChangedAt := now); }
      if k.status == Active && row.activatedAt.None? { row := row.(activatedAt := Some(now)); }
      if k.revokedAt.Some? { row := row.(revokedAt := if k.revokedAt.value.Some? then k.revokedAt.value else row.revokedAt); }
      row := row.(status := k.status, kms := k.kms, environment := k.environment);
      rows := rows[k.kid := row];
    }

    method SetStatus(kid: Kid, status: Status, revokedAt: Option<int>, now: int)
      modifies this
      ensures rows == StatusSet(old(rows), kid, status, revokedAt, now)
      ensures kid !in old(rows) ==> rows == old(rows)
      ensures kid in old(rows) ==>
                var was := old(rows)[kid];
                rows == old(rows)[kid := Meta(status, was.kms, was.environment, was.firstSeenAt, now,
                                              if status == Active then Some(now) else was.activatedAt,
                                              if revokedAt.Some? then revokedAt else was.revokedAt)]
    {
      if kid in rows {
        var row := rows[kid].(status := status, statusChangedAt := now);
        if status == Active { row := row.(activatedAt := Some(now)); }
        if revokedAt.Some? { row := row.(revokedAt := revokedAt); }
        rows := rows[kid := row];
      }
    }

    method FindPublishableKms(environment: nat) returns (kids: set<Kid>)
      ensures forall kid :: kid in kids <==>
                && kid in rows && rows[kid].kms && rows[kid].environment == environment
                && rows[kid].status != Retired && rows[kid].revokedAt == None
    {
      kids := set kid | kid in rows && rows[kid].kms && rows[kid].environment == environment
                        && rows[kid].status != Retired && rows[kid].revokedAt.None?;
    }
  }

  datatype Statement =
    | DoUpsert(k: Input, now: int)
    | DoSetStatus(kid: Kid, status: Status, revokedAt: Option<int>, now: int)

  function After(rows: map<Kid, Meta>, ops: seq<Statement>): map<Kid, Meta>
  {
    if ops == [] then rows
    else
      var before, last := After(rows, ops[..|ops| - 1]), ops[|ops| - 1];
      match last
      case DoUpsert(k, now) => Upserted(before, k, now)
      case DoSetStatus(kid, status, revokedAt, now) => StatusSet(before, kid, status, revokedAt, now)
  }

  /**
   * Whatever is written to the metadata, with or without a revocation date: a revoked key stays
   * revoked and is never offered for publication again, and a known key keeps its first date.
   */
  lemma {:induction false} RevocationIsFinal(rows: map<Kid, Meta>, ops: seq<Statement>, kid: Kid, environment: nat)
    requires kid in rows && rows[kid].revokedAt.Some?
    ensures kid in After(rows, ops) && After(rows, ops)[kid].revokedAt.Some?
    ensures After(rows, ops)[kid].firstSeenAt == rows[kid].firstSeenAt
    ensures !PublishableKms(After(rows, ops), environment, kid)
  {
    if ops != [] { RevocationIsFinal(rows, ops[..|ops| - 1], kid, environment); }
  }
}
