/**
 * What the single commands of `finish` and `endSession` leave in Redis and in the participants, and that a
 * logout which went on to the participants has forgotten every grant's context and the session's set.
 */
module LogoutEffects {
  import opened Common
  import opened LogoutQueue
  import opened OidcStore
  import opened LogoutRuns

  /** The three statements of `finish`: the grant's context, its place in the session's set, and the participant. */
  lemma FinishDoes(s: State, st: Step, ttl: nat)
    requires st.GoOnFinish? && Enabled(s, st, ttl) && ttl > 0
    ensures var x, s' := s.flights[st.f], Apply(s, st, ttl);
      match x.next
      case ToSetContext => s'.store.contexts == s.store.contexts[x.grant := x.session]
      case ToAddGrant =>
        && x.session in s'.store.sidGrants && s'.store.sidGrants[x.session].life == Until(s.now + ttl)
        && x.grant in s'.store.sidGrants[x.session].grants
        && (x.session in s.store.sidGrants && s.store.sidGrants[x.session].life.Alive(s.now) ==>
              s.store.sidGrants[x.session].grants <= s'.store.sidGrants[x.session].grants)
      case ToJoin =>
        && Participant(x.session, x.client) in s'.tables.participants
        && forall p | p in s.tables.participants :: p in s'.tables.participants && s'.tables.participants[p] == s.tables.participants[p]
  {
  }

  /** A handoff makes its target a participant, and leaves one that joined before as it is. */
  lemma HandOffDoes(s: State, st: Step, ttl: nat)
    requires st.HandOff? && Enabled(s, st, ttl)
    ensures Participant(st.sid, st.client) in Apply(s, st, ttl).tables.participants
    ensures forall p | p in s.tables.participants ::
              p in Apply(s, st, ttl).tables.participants && Apply(s, st, ttl).tables.participants[p] == s.tables.participants[p]
  {
  }

  /** The two revocations of a grant's tokens each delete what they read; then the Grant goes if it is there, and its context. */
  lemma EndDoes(s: State, st: Step, ttl: nat)
    requires st.GoOnLogout? && Enabled(s, st, ttl)
    ensures var e, s' := s.flights[st.f], Apply(s, st, ttl);
      && EndingAt(s', st.f)
      && var stage := s'.flights[st.f].stage;
        match e.stage
        case ToReadList(g, again) =>
          stage == ToDelete(g, if g in s.store.lists && s.store.lists[g].life.Alive(s.now) then s.store.lists[g].keys else [], again)
        case ToDelete(g, keys, again) =>
          && stage == (if again then ToLookUp(g) else ToReadList(g, true))
          && s'.store.lists == s.store.lists - {g}
          && forall k :: k in s'.store.artifacts <==> k in s.store.artifacts && k !in keys
        case ToLookUp(g) =>
          stage == if Find(s.store, OidcStore.Key(Grant, g), s.now).Some? then ToDestroy(g) else ToForget(g)
        case ToDestroy(g) => stage == ToForget(g) && s'.store.artifacts == s.store.artifacts - {OidcStore.Key(Grant, g)}
        case ToForget(g) => stage == Between && s'.store.contexts == s.store.contexts - {g}
        case Between => stage == ToReadClients && s'.store.sidGrants == s.store.sidGrants - {e.sid}
        case ToReadClients =>
          stage == ToInsert && forall c :: c in s'.flights[st.f].clients <==> Participant(e.sid, c) in s.tables.participants
        case _ => true
  {
    if s.flights[st.f].stage.ToReadClients? {
      var e, t := s.flights[st.f], s.tables;
      forall c ensures c in ClientsOf(t, e.sid) <==> Participant(e.sid, c) in t.participants { }
    }
  }

  // ---- over a run --------------------------------------------------------------------------------------

  /** The logout is through with this grant of the session. */
  predicate IsDone(e: Flight, g: GrantId)
  {
    && e.Ending? && g in e.grants && g !in e.left
    && match e.stage
       case ToReadSet => false
       case ToReadList(h, _) => h != g
       case ToDelete(h, _, _) => h != g
       case ToLookUp(h) => h != g
       case ToDestroy(h) => h != g
       case ToForget(h) => h != g
       case _ => true
  }

  lemma DoneStep(s: State, st: Step, ttl: nat, f: nat, g: GrantId)
    requires Enabled(s, st, ttl) && EndingAt(Apply(s, st, ttl), f) && IsDone(Apply(s, st, ttl).flights[f], g)
    ensures || (EndingAt(s, f) && IsDone(s.flights[f], g))
            || (st == GoOnLogout(f) && g !in Apply(s, st, ttl).store.contexts)
  {
  }

  lemma ClearedStep(s: State, st: Step, ttl: nat, f: nat)
    requires Enabled(s, st, ttl) && EndingAt(Apply(s, st, ttl), f)
    requires Apply(s, st, ttl).flights[f].stage.ToReadClients? || Apply(s, st, ttl).flights[f].stage.ToInsert?
    ensures || (EndingAt(s, f) && (s.flights[f].stage.ToReadClients? || s.flights[f].stage.ToInsert?)
                && s.flights[f].sid == Apply(s, st, ttl).flights[f].sid)
            || (st == GoOnLogout(f) && Apply(s, st, ttl).flights[f].sid !in Apply(s, st, ttl).store.sidGrants)
  {
  }

  lemma RunStep(tr: seq<State>, steps: seq<Step>, ttl: nat, i: nat)
    requires IsRun(tr, steps, ttl) && i < |steps|
    ensures Enabled(tr[i], steps[i], ttl) && tr[i + 1] == Apply(tr[i], steps[i], ttl)
  {
  }

  /** The context of every grant a logout is through with was removed, even when its revocation failed. */
  lemma {:induction false} ContextForgotten(tr: seq<State>, steps: seq<Step>, ttl: nat, i: nat, f: nat, g: GrantId) returns (n: nat)
    requires IsRun(tr, steps, ttl) && i < |tr| && EndingAt(tr[i], f) && IsDone(tr[i].flights[f], g)
    ensures n < i && steps[n] == GoOnLogout(f) && g !in tr[n + 1].store.contexts
    decreases i
  {
    RunStep(tr, steps, ttl, i - 1);
    DoneStep(tr[i - 1], steps[i - 1], ttl, f, g);
    if EndingAt(tr[i - 1], f) && IsDone(tr[i - 1].flights[f], g) {
      n := ContextForgotten(tr, steps, ttl, i - 1, f, g);
    } else {
      n := i - 1;
    }
  }

  /** Before a logout reads the participants it removed the session's set of grants. */
  lemma {:induction false} SetForgotten(tr: seq<State>, steps: seq<Step>, ttl: nat, i: nat, f: nat) returns (n: nat)
    requires IsRun(tr, steps, ttl) && i < |tr| && EndingAt(tr[i], f)
    requires tr[i].flights[f].stage.ToReadClients? || tr[i].flights[f].stage.ToInsert?
    ensures n < i && steps[n] == GoOnLogout(f) && tr[i].flights[f].sid !in tr[n + 1].store.sidGrants
    decreases i
  {
    RunStep(tr, steps, ttl, i - 1);
    ClearedStep(tr[i - 1], steps[i - 1], ttl, f);
    if EndingAt(tr[i - 1], f) && (tr[i - 1].flights[f].stage.ToReadClients? || tr[i - 1].flights[f].stage.ToInsert?)
       && tr[i - 1].flights[f].sid == tr[i].flights[f].sid
    {
      n := SetForgotten(tr, steps, ttl, i - 1, f);
    } else {
      n := i - 1;
    }
  }
}
