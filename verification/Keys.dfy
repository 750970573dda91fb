/**
 * The signing-key lifecycle: the operator's commands over a key store, write by write, and the keys
 * the service loads, signs with and publishes.
 */
module Keys {
  import opened Common

  type Kid = nat

  datatype Status = Next | Active | Retiring | Retired

  datatype Key = Key(kid: Kid, status: Status, revoked: bool)

  /** The keys of a store in the order it lists them. */
  type Store = seq<Key>

  function Rank(s: Status): nat
  {
    match s
    case Next => 0
    case Active => 1
    case Retiring => 2
    case Retired => 3
  }

  // ---- single writes --------------------------------------------------------------------------------

  datatype Write = Create(kid: Kid, status: Status) | SetStatus(kid: Kid, status: Status, revoke: bool)

  function Updated(k: Key, status: Status, revoke: bool): Key
  {
    Key(k.kid, status, k.revoked || revoke)
  }

  function Written(keys: Store, w: Write): (r: Store)
    ensures |r| == |keys| + if w.Create? then 1 else 0
    ensures forall i :: 0 <= i < |keys| ==>
      r[i] == if w.SetStatus? && keys[i].kid == w.kid then Updated(keys[i], w.status, w.revoke) else keys[i]
    ensures w.Create? ==> r[|keys|] == Key(w.kid, w.status, false)
  {
    match w
    case Create(kid, status) => keys + [Key(kid, status, false)]
    case SetStatus(kid, status, revoke) =>
      seq(|keys|, i requires 0 <= i < |keys| => if keys[i].kid == kid then Updated(keys[i], status, revoke) else keys[i])
  }

  function WrittenAll(keys: Store, ws: seq<Write>): Store
    decreases |ws|
  {
    if ws == [] then keys else WrittenAll(Written(keys, ws[0]), ws[1..])
  }

  // ---- the commands ---------------------------------------------------------------------------------

  datatype Command = Generate | Activate(kid: Kid) | Retire(kid: Kid) | Revoke(kid: Kid)

  datatype Failure = UnknownKid | NotNext | NotRetiring

  predicate Has(keys: Store, kid: Kid)
  {
    exists i :: 0 <= i < |keys| && keys[i].kid == kid
  }

  /** The first key with this kid. */
  function Find(keys: Store, kid: Kid): (k: Key)
    requires Has(keys, kid)
    ensures k.kid == kid && k in keys
  {
    if keys[0].kid == kid then keys[0] else Find(keys[1..], kid)
  }

  /** The first key that is NEXT and not revoked. */
  function FirstNext(keys: Store): (r: Option<Key>)
    ensures r.Some? ==> r.value in keys && r.value.status.Next? && !r.value.revoked
    ensures r.None? ==> forall i :: 0 <= i < |keys| ==> !keys[i].status.Next? || keys[i].revoked
  {
    if keys == [] then None
    else if keys[0].status.Next? && !keys[0].revoked then Some(keys[0])
    else FirstNext(keys[1..])
  }

  function ActiveKids(keys: Store): (r: seq<Kid>)
    ensures forall i :: 0 <= i < |keys| && keys[i].status.Active? ==> keys[i].kid in r
    ensures forall kid :: kid in r ==> exists i :: 0 <= i < |keys| && keys[i].kid == kid && keys[i].status.Active?
  {
    if keys == [] then []
    else
      var rest := ActiveKids(keys[1..]);
      assert forall i :: 0 < i < |keys| ==> keys[i] == keys[1..][i - 1];
      if keys[0].status.Active? then [keys[0].kid] + rest else rest
  }

  function Demotions(kids: seq<Kid>): (r: seq<Write>)
    ensures |r| == |kids| && forall i :: 0 <= i < |kids| ==> r[i] == SetStatus(kids[i], Retiring, false)
  {
    if kids == [] then [] else [SetStatus(kids[0], Retiring, false)] + Demotions(kids[1..])
  }

  predicate SomeActive(keys: Store)
  {
    exists i :: 0 <= i < |keys| && keys[i].status.Active? && !keys[i].revoked
  }

  /** The writes of a command, from the keys it listed when it began; `newKid` names a key it creates. */
  function Plan(keys: Store, c: Command, newKid: Kid): Result<seq<Write>, Failure>
  {
    match c
    case Generate => Ok([Create(newKid, if SomeActive(keys) then Next else Active)])
    case Activate(kid) =>
      if !Has(keys, kid) then Err(UnknownKid)
      else if !Find(keys, kid).status.Next? || Find(keys, kid).revoked then Err(NotNext)
      else Ok(Demotions(ActiveKids(keys)) + [SetStatus(kid, Active, false)])
    case Retire(kid) =>
      if !Has(keys, kid) then Err(UnknownKid)
      else if !Find(keys, kid).status.Retiring? then Err(NotRetiring)
      else Ok([SetStatus(kid, Retired, false)])
    case Revoke(kid) =>
      if !Has(keys, kid) then Err(UnknownKid)
      else
        var stop := [SetStatus(kid, Retired, true)];
        if !Find(keys, kid).status.Active? then Ok(stop)
        else if FirstNext(keys).Some? then Ok(stop + [SetStatus(FirstNext(keys).value.kid, Active, false)])
        else Ok(stop + [Create(newKid, Active)])
  }

  /** One operator's store, written key by key. */
  class KeyStore {
    var keys: Store

    constructor ()
      ensures keys == []
    {
      keys := [];
    }

    method CreateKey(kid: Kid, status: Status)
      modifies this
      ensures keys == Written(old(keys), Create(kid, status))
    {
      keys := keys + [Key(kid, status, false)];
    }

    method SetKeyStatus(kid: Kid, status: Status, revoke: bool)
      modifies this
      ensures keys == Written(old(keys), SetStatus(kid, status, revoke))
    {
      var updated: Store := [];
      for i := 0 to |keys|
        invariant |updated| == i && keys == old(keys)
        invariant forall j :: 0 <= j < i ==> updated[j] == if keys[j].kid == kid then Updated(keys[j], status, revoke) else keys[j]
      {
        var k := keys[i];
        updated := updated + [if k.kid == kid then Key(k.kid, status, k.revoked || revoke) else k];
      }
      keys := updated;
    }

    /** Every ACTIVE key of the list becomes RETIRING. */
    method Demote(listed: Store)
      modifies this
      ensures keys == WrittenAll(old(keys), Demotions(ActiveKids(listed)))
    {
      for i := 0 to |listed|
        invariant WrittenAll(keys, Demotions(ActiveKids(listed[i..]))) == WrittenAll(old(keys), Demotions(ActiveKids(listed)))
      {
        assert listed[i..][1..] == listed[i + 1..];
        if listed[i].status == Active { SetKeyStatus(listed[i].kid, Retiring, false); }
      }
    }

    method ActivateKey(kid: Kid, newKid: Kid) returns (failure: Option<Failure>)
      modifies this
      ensures failure.Some? ==> keys == old(keys) && Plan(old(keys), Activate(kid), newKid) == Err(failure.value)
      ensures failure.None? ==>
                Plan(old(keys), Activate(kid), newKid).Ok? && keys == WrittenAll(old(keys), Plan(old(keys), Activate(kid), newKid).value)
    {
      if !Has(keys, kid) { return Some(UnknownKid); }
      var target := Find(keys, kid);
      if target.status != Next || target.revoked { return Some(NotNext); }
      ghost var demotions := Demotions(ActiveKids(keys));
      Demote(keys);
      AppendedWrite(old(keys), demotions, SetStatus(kid, Active, false));
      SetKeyStatus(kid, Active, false);
      return None;
    }

    method RevokeKey(kid: Kid, newKid: Kid) returns (failure: Option<Failure>)
      modifies this
      ensures failure.Some? ==> keys == old(keys) && Plan(old(keys), Revoke(kid), newKid) == Err(failure.value)
      ensures failure.None? ==>
                Plan(old(keys), Revoke(kid), newKid).Ok? && keys == WrittenAll(old(keys), Plan(old(keys), Revoke(kid), newKid).value)
    {
      if !Has(keys, kid) { return Some(UnknownKid); }
      var listed := keys;
      var wasActive := Find(keys, kid).status == Active;
      SetKeyStatus(kid, Retired, true);
      if wasActive {
        var next := FirstNext(listed);
        if next.Some? {
          AppendedWrite(listed, [SetStatus(kid, Retired, true)], SetStatus(next.value.kid, Active, false));
          SetKeyStatus(next.value.kid, Active, false);
        } else {
          AppendedWrite(listed, [SetStatus(kid, Retired, true)], Create(newKid, Active));
          CreateKey(newKid, Active);
        }
      }
      return None;
    }

    /** Commands read the list once; `newKid` is the kid of a key they may create. */
    method Execute(c: Command, newKid: Kid) returns (failure: Option<Failure>)
      modifies this
      ensures failure.Some? ==> keys == old(keys) && Plan(old(keys), c, newKid) == Err(failure.value)
      ensures failure.None? ==> Plan(old(keys), c, newKid).Ok? && keys == WrittenAll(old(keys), Plan(old(keys), c, newKid).value)
    {
      match c
      case Generate =>
        var status := if exists i :: 0 <= i < |keys| && keys[i].status == Active && !keys[i].revoked then Next else Active;
        CreateKey(newKid, status);
        failure := None;
      case Activate(kid) =>
        failure := ActivateKey(kid, newKid);
      case Retire(kid) =>
        if !Has(keys, kid) { return Some(UnknownKid); }
        if Find(keys, kid).status != Retiring { return Some(NotRetiring); }
        SetKeyStatus(kid, Retired, false);
        failure := None;
      case Revoke(kid) =>
        failure := RevokeKey(kid, newKid);
    }
  }

  lemma {:induction false} AppendedWrite(keys: Store, ws: seq<Write>, w: Write)
    ensures WrittenAll(keys, ws + [w]) == Written(WrittenAll(keys, ws), w)
    decreases |ws|
  {
    if ws == [] {
      assert [w][1..] == [];
      assert WrittenAll(Written(keys, w), []) == Written(keys, w);
    } else {
      AppendedWrite(Written(keys, ws[0]), ws[1..], w);
      assert (ws + [w])[1..] == ws[1..] + [w];
    }
  }

  // ---- what every write keeps -----------------------------------------------------------------------

  ghost predicate Distinct(keys: Store)
  {
    forall i, j :: 0 <= i < j < |keys| ==> keys[i].kid != keys[j].kid
  }

  ghost predicate AtMostOneActive(keys: Store)
  {
    forall i, j :: 0 <= i < j < |keys| ==> !(keys[i].status.Active? && keys[j].status.Active?)
  }

  ghost predicate ExactlyOneActive(keys: Store)
  {
    AtMostOneActive(keys) && exists i :: 0 <= i < |keys| && keys[i].status.Active?
  }

  ghost predicate Inv(keys: Store)
  {
    Distinct(keys) && AtMostOneActive(keys) && forall i :: 0 <= i < |keys| && keys[i].revoked ==> keys[i].status.Retired?
  }

  /** Keys stay where they are in the list; their rank does not go back and a revocation is not undone. */
  ghost predicate Advances(before: Store, after: Store)
  {
    && |before| <= |after|
    && forall i :: 0 <= i < |before| ==>
      && before[i].kid == after[i].kid && Rank(before[i].status) <= Rank(after[i].status)
      && (before[i].revoked ==> after[i].revoked)
  }

  ghost predicate NoActive(keys: Store)
  {
    forall i :: 0 <= i < |keys| ==> !keys[i].status.Active?
  }

  /** What a write must respect to keep the invariant. */
  ghost predicate Safe(keys: Store, w: Write)
  {
    && (w.status.Active? ==> NoActive(keys))
    && match w
       case Create(kid, _) => !Has(keys, kid)
       case SetStatus(kid, status, revoke) =>
         && (revoke ==> status.Retired?)
         && forall i :: 0 <= i < |keys| && keys[i].kid == kid ==>
              Rank(keys[i].status) <= Rank(status) && (keys[i].revoked ==> status.Retired?)
  }

  lemma {:induction false} SafeKeeps(keys: Store, w: Write)
    requires Inv(keys) && Safe(keys, w)
    ensures Inv(Written(keys, w)) && Advances(keys, Written(keys, w))
  {
  }

  lemma {:induction false} FoundKey(keys: Store, kid: Kid, i: int)
    requires Distinct(keys) && 0 <= i < |keys| && keys[i].kid == kid
    ensures Has(keys, kid) && Find(keys, kid) == keys[i]
  {
  }

  lemma {:induction false} OneActiveKid(keys: Store)
    requires Inv(keys)
    ensures |ActiveKids(keys)| <= 1
  {
    if keys != [] {
      var rest := keys[1..];
      assert forall i :: 0 <= i < |rest| ==> rest[i] == keys[i + 1];
      OneActiveKid(rest);
      if keys[0].status.Active? && ActiveKids(rest) != [] {
        NoOther(keys, ActiveKids(rest)[0]);
      }
    }
  }

  lemma {:induction false} NoOther(keys: Store, kid: Kid)
    requires AtMostOneActive(keys) && keys != [] && keys[0].status.Active?
    ensures kid !in ActiveKids(keys[1..])
  {
  }

  /** The first write of a command. */
  lemma {:induction false} FirstWriteSafe(keys: Store, c: Command, newKid: Kid)
    requires Inv(keys) && !Has(keys, newKid) && Plan(keys, c, newKid).Ok?
    ensures 1 <= |Plan(keys, c, newKid).value| <= 2
    ensures Safe(keys, Plan(keys, c, newKid).value[0])
  {
    OneActiveKid(keys);
    if !c.Generate? {
      forall i | 0 <= i < |keys| && keys[i].kid == c.kid ensures Find(keys, c.kid) == keys[i] { FoundKey(keys, c.kid, i); }
    }
    if c.Activate? && ActiveKids(keys) != [] {
      var kid := ActiveKids(keys)[0];
      assert kid in ActiveKids(keys);
      var a :| 0 <= a < |keys| && keys[a].kid == kid && keys[a].status.Active?;
      assert Plan(keys, c, newKid).value[0] == SetStatus(kid, Retiring, false);
    }
  }

  lemma {:induction false} ActivateTarget(keys: Store, kid: Kid)
    requires Inv(keys) && Has(keys, kid) && Find(keys, kid).status.Next? && |ActiveKids(keys)| == 1
    ensures var demoted := Written(keys, SetStatus(ActiveKids(keys)[0], Retiring, false));
      && NoActive(demoted)
      && forall i :: 0 <= i < |demoted| && demoted[i].kid == kid ==> demoted[i] == Find(keys, kid)
  {
    var active := ActiveKids(keys)[0];
    assert active in ActiveKids(keys);
    FoundKeyStatus(keys, kid);
    var a :| 0 <= a < |keys| && keys[a].kid == active && keys[a].status.Active?;
    forall i | 0 <= i < |keys| && keys[i].status.Active? ensures keys[i].kid == active {
      assert keys[i].kid in ActiveKids(keys);
    }
  }

  lemma {:induction false} SecondWriteSafe(keys: Store, c: Command, newKid: Kid)
    requires Inv(keys) && !Has(keys, newKid) && Plan(keys, c, newKid).Ok? && |Plan(keys, c, newKid).value| == 2
    ensures Safe(Written(keys, Plan(keys, c, newKid).value[0]), Plan(keys, c, newKid).value[1])
  {
    OneActiveKid(keys);
    forall i | 0 <= i < |keys| && keys[i].kid == c.kid ensures Find(keys, c.kid) == keys[i] { FoundKey(keys, c.kid, i); }
    if c.Activate? {
      ActivateTarget(keys, c.kid);
      assert Plan(keys, c, newKid).value == [SetStatus(ActiveKids(keys)[0], Retiring, false), SetStatus(c.kid, Active, false)];
    } else if FirstNext(keys).Some? {
      var next := FirstNext(keys).value;
      forall i | 0 <= i < |keys| && keys[i].kid == next.kid ensures keys[i] == next {
        var j :| 0 <= j < |keys| && keys[j] == next;
      }
    }
  }

  /** The store after the first `done` writes of a command that then stopped or crashed. */
  function Executed(keys: Store, c: Command, newKid: Kid, done: nat): Store
    requires Plan(keys, c, newKid).Ok? && done <= |Plan(keys, c, newKid).value|
  {
    WrittenAll(keys, Plan(keys, c, newKid).value[..done])
  }

  lemma {:induction false} AdvancesChain(a: Store, b: Store, c: Store)
    requires Advances(a, b) && Advances(b, c)
    ensures Advances(a, c)
  {
  }

  lemma {:induction false} CommandKeeps(keys: Store, c: Command, newKid: Kid, done: nat)
    requires Inv(keys) && !Has(keys, newKid) && Plan(keys, c, newKid).Ok? && done <= |Plan(keys, c, newKid).value|
    ensures Inv(Executed(keys, c, newKid, done)) && Advances(keys, Executed(keys, c, newKid, done))
  {
    var ws := Plan(keys, c, newKid).value;
    FirstWriteSafe(keys, c, newKid);
    if done >= 1 {
      var one := Written(keys, ws[0]);
      SafeKeeps(keys, ws[0]);
      if done == 1 {
        assert ws[..1] == [ws[0]];
        assert WrittenAll(keys, ws[..1]) == WrittenAll(one, []);
      } else {
        SecondWriteSafe(keys, c, newKid);
        SafeKeeps(one, ws[1]);
        AdvancesChain(keys, one, Written(one, ws[1]));
        TwoWrites(keys, ws);
      }
    }
  }

  lemma {:induction false} TwoWrites(keys: Store, ws: seq<Write>)
    requires |ws| == 2
    ensures ws[..2] == ws
    ensures WrittenAll(keys, ws) == Written(Written(keys, ws[0]), ws[1])
  {
    assert ws == [ws[0]] + [ws[1]];
    AppendedWrite(keys, [ws[0]], ws[1]);
    assert WrittenAll(keys, [ws[0]]) == WrittenAll(Written(keys, ws[0]), []);
  }

  // ---- runs -----------------------------------------------------------------------------------------

  /** One command with the number of its writes that were made. */
  datatype Step = Step(c: Command, newKid: Kid, done: nat)

  predicate Enabled(keys: Store, st: Step)
  {
    !Has(keys, st.newKid) && Plan(keys, st.c, st.newKid).Ok? && st.done <= |Plan(keys, st.c, st.newKid).value|
  }

  predicate Finished(keys: Store, st: Step)
    requires Enabled(keys, st)
  {
    st.done == |Plan(keys, st.c, st.newKid).value|
  }

  ghost predicate IsRun(tr: seq<Store>, steps: seq<Step>)
  {
    && |tr| == |steps| + 1 && tr[0] == []
    && forall i | 0 <= i < |steps| ::
      Enabled(tr[i], steps[i]) && tr[i + 1] == Executed(tr[i], steps[i].c, steps[i].newKid, steps[i].done)
  }

  /** Never two ACTIVE keys, at any write of any command, with crashes anywhere; revoked keys are RETIRED. */
  lemma {:induction false} NeverTwoActive(tr: seq<Store>, steps: seq<Step>, i: nat)
    requires IsRun(tr, steps) && i < |tr|
    ensures Inv(tr[i])
  {
    if i > 0 {
      NeverTwoActive(tr, steps, i - 1);
      assert tr[i - 1 + 1] == Executed(tr[i - 1], steps[i - 1].c, steps[i - 1].newKid, steps[i - 1].done);
      CommandKeeps(tr[i - 1], steps[i - 1].c, steps[i - 1].newKid, steps[i - 1].done);
    }
  }

  /** A key's status never goes back in NEXT, ACTIVE, RETIRING, RETIRED, and no revocation is undone. */
  lemma {:induction false} RankNeverGoesBack(tr: seq<Store>, steps: seq<Step>, i: nat, j: nat)
    requires IsRun(tr, steps) && i <= j < |tr|
    ensures Advances(tr[i], tr[j])
    decreases j
  {
    if i < j {
      RankNeverGoesBack(tr, steps, i, j - 1);
      NeverTwoActive(tr, steps, j - 1);
      assert tr[j - 1 + 1] == Executed(tr[j - 1], steps[j - 1].c, steps[j - 1].newKid, steps[j - 1].done);
      CommandKeeps(tr[j - 1], steps[j - 1].c, steps[j - 1].newKid, steps[j - 1].done);
      AdvancesChain(tr[i], tr[j - 1], tr[j]);
    }
  }

  /** A command that was made in full leaves exactly one ACTIVE key where there was one, or no key at all. */
  lemma {:induction false} FinishedKeepsOne(keys: Store, c: Command, newKid: Kid)
    requires Inv(keys) && !Has(keys, newKid) && Plan(keys, c, newKid).Ok?
    requires keys == [] || ExactlyOneActive(keys)
    ensures ExactlyOneActive(WrittenAll(keys, Plan(keys, c, newKid).value))
  {
    var ws := Plan(keys, c, newKid).value;
    assert ws[..|ws|] == ws;
    CommandKeeps(keys, c, newKid, |ws|);
    FirstWriteSafe(keys, c, newKid);
    var last := ws[|ws| - 1];
    var before := if |ws| == 1 then keys else Written(keys, ws[0]);
    if |ws| == 1 {
      assert ws == [ws[0]];
      assert WrittenAll(keys, ws) == WrittenAll(Written(keys, ws[0]), []);
    } else {
      TwoWrites(keys, ws);
    }
    if keys == [] {
      assert c.Generate? && Written(before, last)[0].status.Active?;
    } else {
      var i :| 0 <= i < |keys| && keys[i].status.Active?;
      LastWriteActive(keys, c, newKid, i);
    }
  }

  /** The ACTIVE key stays, or the last write makes another one ACTIVE. */
  lemma {:induction false} LastWriteActive(keys: Store, c: Command, newKid: Kid, i: int)
    requires Inv(keys) && !Has(keys, newKid) && Plan(keys, c, newKid).Ok?
    requires 0 <= i < |keys| && keys[i].status.Active?
    ensures var ws := Plan(keys, c, newKid).value;
      && 1 <= |ws| <= 2
      && var before := if |ws| == 1 then keys else Written(keys, ws[0]);
        !NoActive(Written(before, ws[|ws| - 1]))
  {
    var ws := Plan(keys, c, newKid).value;
    FirstWriteSafe(keys, c, newKid);
    var before := if |ws| == 1 then keys else Written(keys, ws[0]);
    var after := Written(before, ws[|ws| - 1]);
    match c
    case Generate => assert after[i].status.Active?;
    case Activate(kid) =>
      var t :| 0 <= t < |keys| && keys[t].kid == kid;
      assert after[t].status.Active?;
    case Retire(kid) =>
      FoundKeyStatus(keys, kid);
      assert after[i].status.Active?;
    case Revoke(kid) =>
      if Find(keys, kid).status.Active? {
        if FirstNext(keys).Some? {
          var t :| 0 <= t < |keys| && keys[t] == FirstNext(keys).value;
          assert after[t].status.Active?;
        } else {
          assert after[|keys|].status.Active?;
        }
      } else {
        FoundKeyStatus(keys, kid);
        assert after[i].status.Active?;
      }
  }

  lemma {:induction false} FoundKeyStatus(keys: Store, kid: Kid)
    requires Distinct(keys) && Has(keys, kid)
    ensures forall i :: 0 <= i < |keys| && keys[i].kid == kid ==> keys[i] == Find(keys, kid)
  {
  }

  /** Without crashes: no keys yet, or exactly one ACTIVE key after every command. */
  lemma {:induction false} OneActiveAfterWholeCommands(tr: seq<Store>, steps: seq<Step>, i: nat)
    requires IsRun(tr, steps) && i < |tr|
    requires forall k | 0 <= k < |steps| :: Finished(tr[k], steps[k])
    ensures tr[i] == [] || ExactlyOneActive(tr[i])
  {
    if i > 0 {
      OneActiveAfterWholeCommands(tr, steps, i - 1);
      NeverTwoActive(tr, steps, i - 1);
      var st := steps[i - 1];
      assert Finished(tr[i - 1], st);
      assert tr[i - 1 + 1] == Executed(tr[i - 1], st.c, st.newKid, st.done);
      var ws := Plan(tr[i - 1], st.c, st.newKid).value;
      assert ws[..|ws|] == ws;
      FinishedKeepsOne(tr[i - 1], st.c, st.newKid);
    }
  }

  // ---- what becomes of the keys ---------------------------------------------------------------------

  /** A command is refused for an unknown kid, an activation that is not of an unrevoked NEXT key, or a retirement that is not of a RETIRING one. */
  lemma {:induction false} RefusedIff(keys: Store, i: nat, c: Command, newKid: Kid)
    requires Inv(keys)
    ensures c.Generate? ==> Plan(keys, c, newKid).Ok?
    ensures !c.Generate? && (forall k :: 0 <= k < |keys| ==> keys[k].kid != c.kid) ==> Plan(keys, c, newKid) == Err(UnknownKid)
    ensures !c.Generate? && i < |keys| && keys[i].kid == c.kid ==>
      match c
      case Activate(_) => if keys[i].status == Next && !keys[i].revoked then Plan(keys, c, newKid).Ok? else Plan(keys, c, newKid) == Err(NotNext)
      case Retire(_) => if keys[i].status == Retiring then Plan(keys, c, newKid).Ok? else Plan(keys, c, newKid) == Err(NotRetiring)
      case _ => Plan(keys, c, newKid).Ok?
  {
    if !c.Generate? && i < |keys| && keys[i].kid == c.kid { FoundKey(keys, c.kid, i); }
  }

  /** Every other key is as it was, at its place in the list. */
  ghost predicate OthersSame(before: Store, after: Store, changed: set<Kid>)
  {
    |before| <= |after| && forall i :: 0 <= i < |before| && before[i].kid !in changed ==> after[i] == before[i]
  }

  lemma {:induction false} OneWrite(keys: Store, w: Write)
    ensures WrittenAll(keys, [w]) == Written(keys, w)
  {
    assert WrittenAll(Written(keys, w), []) == Written(keys, w);
  }

  /** A whole retirement makes the named key RETIRED, and touches no other. */
  lemma {:induction false} RetireRetires(keys: Store, i: nat, newKid: Kid)
    requires Inv(keys) && i < |keys| && keys[i].status == Retiring
    ensures Plan(keys, Retire(keys[i].kid), newKid).Ok?
    ensures var after := WrittenAll(keys, Plan(keys, Retire(keys[i].kid), newKid).value);
      |after| == |keys| && after[i] == Key(keys[i].kid, Retired, keys[i].revoked) && OthersSame(keys, after, {keys[i].kid})
  {
    FoundKey(keys, keys[i].kid, i);
    OneWrite(keys, SetStatus(keys[i].kid, Retired, false));
  }

  /** A new key is NEXT beside an unrevoked ACTIVE one, and ACTIVE otherwise. */
  lemma {:induction false} GenerateAdds(keys: Store, newKid: Kid)
    ensures Plan(keys, Generate, newKid).Ok?
    ensures var after := WrittenAll(keys, Plan(keys, Generate, newKid).value);
      after == keys + [Key(newKid, if exists i :: 0 <= i < |keys| && keys[i].status == Active && !keys[i].revoked then Next else Active, false)]
  {
    OneWrite(keys, Plan(keys, Generate, newKid).value[0]);
  }

  /** A whole activation makes the named key ACTIVE and the one that was ACTIVE before RETIRING. */
  lemma {:induction false} ActivateActivates(keys: Store, i: nat, newKid: Kid)
    requires Inv(keys) && i < |keys| && keys[i].status == Next && !keys[i].revoked
    ensures Plan(keys, Activate(keys[i].kid), newKid).Ok?
    ensures var after := WrittenAll(keys, Plan(keys, Activate(keys[i].kid), newKid).value);
      && |after| == |keys| && after[i] == Key(keys[i].kid, Active, false)
      && forall k :: 0 <= k < |keys| && k != i ==>
        after[k] == if keys[k].status == Active then Key(keys[k].kid, Retiring, keys[k].revoked) else keys[k]
  {
    var kid := keys[i].kid;
    FoundKey(keys, kid, i);
    OneActiveKid(keys);
    var kids := ActiveKids(keys);
    if kids == [] {
      OneWrite(keys, SetStatus(kid, Active, false));
      assert Plan(keys, Activate(kid), newKid).value == [SetStatus(kid, Active, false)];
    } else {
      var w := SetStatus(kids[0], Retiring, false);
      assert Demotions(kids) == [w];
      AppendedWrite(keys, [w], SetStatus(kid, Active, false));
      OneWrite(keys, w);
      OnlyActive(keys, kids[0]);
    }
  }

  lemma {:induction false} OnlyActive(keys: Store, kid: Kid)
    requires Inv(keys) && ActiveKids(keys) == [kid]
    ensures forall k :: 0 <= k < |keys| ==> (keys[k].status == Active <==> keys[k].kid == kid)
  {
    assert kid in ActiveKids(keys);
    var a :| 0 <= a < |keys| && keys[a].kid == kid && keys[a].status.Active?;
    forall k | 0 <= k < |keys| ensures keys[k].status == Active <==> keys[k].kid == kid {
      if keys[k].status == Active { assert keys[k].kid in ActiveKids(keys); }
    }
  }

  /**
   * A whole revocation leaves the named key RETIRED and revoked. If it was ACTIVE, the first unrevoked
   * NEXT key takes its place, or a new key when there is none; nothing else changes.
   */
  lemma {:induction false} RevokeRevokes(keys: Store, i: nat, newKid: Kid)
    requires Inv(keys) && !Has(keys, newKid) && i < |keys|
    ensures Plan(keys, Revoke(keys[i].kid), newKid).Ok?
    ensures var after := WrittenAll(keys, Plan(keys, Revoke(keys[i].kid), newKid).value);
      && |keys| <= |after| && after[i] == Key(keys[i].kid, Retired, true)
      && if keys[i].status != Active then |after| == |keys| && OthersSame(keys, after, {keys[i].kid})
         else if exists k :: IsFirstNext(keys, k) then
           && |after| == |keys|
           && forall k :: 0 <= k < |keys| && k != i ==>
             after[k] == if IsFirstNext(keys, k) then Key(keys[k].kid, Active, false) else keys[k]
         else after[|keys|..] == [Key(newKid, Active, false)] && OthersSame(keys, after, {keys[i].kid})
  {
    var kid := keys[i].kid;
    FoundKey(keys, kid, i);
    var stop := SetStatus(kid, Retired, true);
    OneWrite(keys, stop);
    FirstNextIs(keys);
    if keys[i].status == Active {
      if FirstNext(keys).Some? {
        AppendedWrite(keys, [stop], SetStatus(FirstNext(keys).value.kid, Active, false));
      } else {
        AppendedWrite(keys, [stop], Create(newKid, Active));
      }
    }
  }

  predicate IsFirstNext(keys: Store, k: int)
  {
    && 0 <= k < |keys| && keys[k].status == Next && !keys[k].revoked
    && forall j :: 0 <= j < k ==> keys[j].status != Next || keys[j].revoked
  }

  lemma {:induction false} FirstNextIs(keys: Store)
    ensures FirstNext(keys).None? ==> forall k :: !IsFirstNext(keys, k)
    ensures FirstNext(keys).Some? ==> exists k :: IsFirstNext(keys, k) && keys[k] == FirstNext(keys).value
  {
    if keys != [] {
      if keys[0].status.Next? && !keys[0].revoked {
        assert IsFirstNext(keys, 0);
      } else {
        FirstNextIs(keys[1..]);
        if FirstNext(keys[1..]).Some? {
          var k :| IsFirstNext(keys[1..], k) && keys[1..][k] == FirstNext(keys[1..]).value;
          forall j | 0 <= j < k + 1 ensures keys[j].status != Next || keys[j].revoked {
            if j > 0 { assert keys[j] == keys[1..][j - 1]; }
          }
          assert IsFirstNext(keys, k + 1);
        }
      }
    }
  }
}
