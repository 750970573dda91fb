/**
 * The wake-up loop of the logout worker: `tick()` and its `running` / `again` flags.
 *
 * JavaScript interleaves only at awaits, so one call of tick() is cut at its two awaits: up to the
 * first claimDue, from its result to Promise.all, and from there to the loop test. `passes` holds
 * the suspended calls that went past the `running` guard.
 */
module LogoutWorker {
  import LogoutQueue

  datatype Pass = Claiming | Delivering(claimed: nat)

  datatype State = State(running: bool, again: bool, passes: map<nat, Pass>)

  datatype Event =
    | Tick(call: nat)
    | ClaimReturned(call: nat, claimed: nat)
    | Delivered(call: nat)
    | Rejected(call: nat)

  predicate Possible(s: State, e: Event)
  {
    match e
    case Tick(c) => c !in s.passes
    case ClaimReturned(c, _) => c in s.passes && s.passes[c].Claiming?
    case Delivered(c) => c in s.passes && s.passes[c].Delivering?
    case Rejected(c) => c in s.passes
  }

  /** Whether the event starts a claimDue. */
  predicate StartsClaim(s: State, e: Event)
    requires Possible(s, e)
  {
    match e
    case Tick(_) => !s.running
    case Delivered(c) => s.again || s.passes[c].claimed == LogoutQueue.BATCH
    case _ => false
  }

  function Apply(s: State, e: Event): State
    requires Possible(s, e)
  {
    match e
    case Tick(c) => if s.running then s.(again := true) else State(true, false, s.passes[c := Claiming])
    case ClaimReturned(c, n) => s.(passes := s.passes[c := Delivering(n)])
    case Delivered(c) =>
      if StartsClaim(s, e) then State(true, false, s.passes[c := Claiming])
      else State(false, false, s.passes - {c})
    case Rejected(c) => s.(running := false, passes := s.passes - {c})
  }

  class LogoutDeliveryWorker {
    var running: bool
    var again: bool
    var passes: map<nat, Pass>

    ghost function Now(): State
      reads this
    {
      State(running, again, passes)
    }

    ghost predicate Valid()
      reads this
    {
      Inv(Now())
    }

    constructor ()
      ensures Valid() && Now() == State(false, false, map[])
    {
      running, again, passes := false, false, map[];
    }

    /** The call's first segment; `claims` tells whether it went on to call claimDue. */
    method Tick(call: nat) returns (claims: bool)
      requires Valid() && call !in passes
      modifies this
      ensures Valid() && Now() == Apply(old(Now()), Event.Tick(call))
      ensures claims == StartsClaim(old(Now()), Event.Tick(call))
      ensures running && (claims <==> !old(running))
      ensures if old(running) then again && passes == old(passes) else !again && passes == map[call := Claiming]
    {
      if running {
        again := true;
        return false;
      }
      running := true;
      again := false;
      passes := passes[call := Claiming];
      return true;
    }

    method ClaimReturned(call: nat, due: nat)
      requires Valid() && call in passes && passes[call].Claiming?
      modifies this
      ensures Valid() && Now() == Apply(old(Now()), Event.ClaimReturned(call, due))
    {
      passes := passes[call := Delivering(due)];
    }

    /** After Promise.all: the loop test, then either the next claimDue or the end of the pass. */
    method Delivered(call: nat) returns (claims: bool)
      requires Valid() && call in passes && passes[call].Delivering?
      modifies this
      ensures Valid() && Now() == Apply(old(Now()), Event.Delivered(call))
      ensures claims == StartsClaim(old(Now()), Event.Delivered(call))
      ensures claims <==> old(again) || old(passes)[call].claimed == 20
      ensures !again && running == claims && passes == if claims then map[call := Claiming] else map[]
    {
      if passes[call].claimed == LogoutQueue.BATCH { again := true; }
      if again {
        again := false;
        passes := passes[call := Claiming];
        return true;
      }
      passes := passes - {call};
      running := false;
      return false;
    }

    /** An await rejected: the catch logs, the finally releases the worker. */
    method Rejected(call: nat)
      requires Valid() && call in passes
      modifies this
      ensures Valid() && Now() == Apply(old(Now()), Event.Rejected(call))
      ensures !running && passes == map[] && again == old(again)
    {
      passes := passes - {call};
      running := false;
    }
  }

  // ---- at most one drain loop ------------------------------------------------------------------------

  /** `running` is up exactly while one pass is suspended. */
  predicate Inv(s: State)
  {
    if s.running then exists c :: c in s.passes && s.passes.Keys == {c} else s.passes == map[]
  }

  lemma InvKept(s: State, e: Event)
    requires Inv(s) && Possible(s, e)
    ensures Inv(Apply(s, e))
  {
  }

  ghost predicate IsRun(tr: seq<State>, es: seq<Event>)
  {
    && |tr| == |es| + 1
    && tr[0] == State(false, false, map[])
    && forall i | 0 <= i < |es| :: Possible(tr[i], es[i]) && tr[i + 1] == Apply(tr[i], es[i])
  }

  lemma {:induction false} OneDrainLoop(tr: seq<State>, es: seq<Event>, i: nat)
    requires IsRun(tr, es) && i < |tr|
    ensures Inv(tr[i])
    ensures |tr[i].passes| == if tr[i].running then 1 else 0
  {
    if i > 0 {
      OneDrainLoop(tr, es, i - 1);
      InvKept(tr[i - 1], es[i - 1]);
      assert tr[i - 1 + 1] == Apply(tr[i - 1], es[i - 1]);
    }
    if tr[i].running {
      var c :| c in tr[i].passes && tr[i].passes.Keys == {c};
      assert |tr[i].passes| == |tr[i].passes.Keys| == |{c}|;
    }
  }

  // ---- no wake-up is lost --------------------------------------------------------------------------------

  ghost predicate ClaimStarted(tr: seq<State>, es: seq<Event>, from: nat, to: nat)
    requires IsRun(tr, es) && from <= to < |tr|
  {
    exists n | from <= n < to :: Possible(tr[n], es[n]) && StartsClaim(tr[n], es[n])
  }

  /** Until a claim starts for it, a call waits as `again` on the pass in progress. */
  lemma {:induction false} WaitingCall(tr: seq<State>, es: seq<Event>, i: nat, j: nat)
    requires IsRun(tr, es) && i < j < |tr| && es[i].Tick?
    requires forall n | i <= n < j :: !es[n].Rejected?
    ensures ClaimStarted(tr, es, i, j) || (tr[j].running && tr[j].again)
  {
    assert tr[j - 1 + 1] == Apply(tr[j - 1], es[j - 1]);
    if i < j - 1 {
      WaitingCall(tr, es, i, j - 1);
      if !ClaimStarted(tr, es, i, j - 1) && es[j - 1].Delivered? {
        assert StartsClaim(tr[j - 1], es[j - 1]);
      }
    } else if !tr[i].running {
      assert StartsClaim(tr[i], es[i]);
    }
  }

  /**
   * Every call of tick() gets a claimDue that starts at or after the call: at the latest when the
   * pass it found in progress ends, and always before the worker is idle again.
   */
  lemma WakeUpNotLost(tr: seq<State>, es: seq<Event>, i: nat, j: nat)
    requires IsRun(tr, es) && i < j < |tr| && es[i].Tick?
    requires forall n | i <= n < j :: !es[n].Rejected?
    requires !tr[j].running || es[j - 1].Delivered?
    ensures ClaimStarted(tr, es, i, j)
  {
    WaitingCall(tr, es, i, j);
    assert tr[j - 1 + 1] == Apply(tr[j - 1], es[j - 1]);
  }

  /**
   * With failures, exactly: a call that found a pass in progress is served by that pass's end if
   * and only if the pass ends by itself. After a failure it waits for the next tick() from outside.
   */
  lemma WakeUpServedIff(tr: seq<State>, es: seq<Event>, i: nat, n: nat)
    requires IsRun(tr, es) && i < n < |es| && es[i].Tick? && tr[i].running
    requires es[n].Delivered? || es[n].Rejected?
    requires forall m | i < m < n :: es[m].Tick? || es[m].ClaimReturned?
    ensures ClaimStarted(tr, es, i, n + 1) <==> es[n].Delivered?
  {
    if es[n].Delivered? {
      assert tr[n + 1] == Apply(tr[n], es[n]);
      WakeUpNotLost(tr, es, i, n + 1);
    } else {
      StaysRunning(tr, es, i, n);
    }
  }

  lemma {:induction false} StaysRunning(tr: seq<State>, es: seq<Event>, i: nat, n: nat)
    requires IsRun(tr, es) && i <= n < |tr| && tr[i].running
    requires forall m | i <= m < n :: es[m].Tick? || es[m].ClaimReturned?
    ensures forall m | i <= m <= n :: tr[m].running
  {
    if i < n {
      StaysRunning(tr, es, i, n - 1);
      assert tr[n - 1 + 1] == Apply(tr[n - 1], es[n - 1]);
    }
  }

  /** While a pass works, `again` tells whether tick() was called since its claim began. */
  lemma {:induction false} AgainSince(tr: seq<State>, es: seq<Event>, i: nat, j: nat, c: nat)
    requires IsRun(tr, es) && i <= j < |tr| && tr[i] == State(true, false, map[c := Claiming])
    requires forall m | i <= m < j :: es[m].Tick? || es[m].ClaimReturned?
    ensures tr[j].running && tr[j].passes.Keys == {c}
    ensures tr[j].again <==> exists m :: i <= m < j && es[m].Tick?
  {
    if i < j {
      AgainSince(tr, es, i, j - 1, c);
      assert tr[j - 1 + 1] == Apply(tr[j - 1], es[j - 1]);
      if es[j - 1].Tick? { assert i <= j - 1 < j; }
    }
  }

  /** A call that finds the worker idle starts a pass with a fresh flag. */
  lemma PassBegins(tr: seq<State>, es: seq<Event>, i: nat)
    requires IsRun(tr, es) && i < |es| && es[i].Tick?
    ensures tr[i + 1] == if tr[i].running then tr[i].(again := true) else State(true, false, map[es[i].call := Claiming])
  {
    OneDrainLoop(tr, es, i);
    assert tr[i + 1] == Apply(tr[i], es[i]);
  }

  /**
   * A pass that began its claim at `i` and delivered everything at `j` claims again if and only if it had
   * claimed 20 rows or tick() was called meanwhile; otherwise the worker is idle.
   */
  lemma FullBatchGoesOn(tr: seq<State>, es: seq<Event>, i: nat, j: nat, c: nat)
    requires IsRun(tr, es) && i <= j < |es| && tr[i] == State(true, false, map[c := Claiming]) && es[j] == Delivered(c)
    requires forall m | i <= m < j :: es[m].Tick? || es[m].ClaimReturned?
    ensures c in tr[j].passes && tr[j].passes[c].Delivering?
    ensures tr[j + 1] == if tr[j].passes[c].claimed == 20 || exists m :: i <= m < j && es[m].Tick?
                         then State(true, false, map[c := Claiming]) else State(false, false, map[])
  {
    AgainSince(tr, es, i, j, c);
    assert tr[j + 1] == Apply(tr[j], es[j]);
  }

  /** Two ticks, then the claim fails: the worker is idle and nothing was claimed for the second call. */
  lemma FailureLosesWakeUp(tr: seq<State>)
    requires |tr| == 4 && IsRun(tr, [Tick(0), Tick(1), Rejected(0)])
    ensures !tr[3].running && !ClaimStarted(tr, [Tick(0), Tick(1), Rejected(0)], 1, 3)
  {
    var es := [Tick(0), Tick(1), Rejected(0)];
    assert tr[0 + 1] == Apply(tr[0], es[0]) && tr[1 + 1] == Apply(tr[1], es[1]) && tr[2 + 1] == Apply(tr[2], es[2]);
  }
}
