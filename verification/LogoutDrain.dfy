/**
 * The logout queue drains: remaining attempts are a measure that every claim and every recorded outcome
 * of the workers brings down, and only a crash can give back.
 */
module LogoutDrain {
  import opened Common
  import opened LogoutQueue
  import opened LogoutProtocol

  function Left(s: State, schedule: seq<nat>, k: Key): int
  {
    if k !in s.tables.deliveries || k !in s.past || s.tables.deliveries[k].status.Terminal() then 0
    else 2 * (|schedule| - s.past[k].retries) - (if Live(s, Current(s, k)) then 1 else 0)
  }

  ghost function TotalLeft(s: State, schedule: seq<nat>, keys: set<Key>): int
  {
    if keys == {} then 0 else var k :| k in keys; Left(s, schedule, k) + TotalLeft(s, schedule, keys - {k})
  }

  lemma {:induction false} TotalLeftOf(s: State, schedule: seq<nat>, keys: set<Key>, k: Key)
    requires k in keys
    ensures TotalLeft(s, schedule, keys) == Left(s, schedule, k) + TotalLeft(s, schedule, keys - {k})
  {
    var first :| first in keys && TotalLeft(s, schedule, keys) == Left(s, schedule, first) + TotalLeft(s, schedule, keys - {first});
    if first != k {
      TotalLeftOf(s, schedule, keys - {first}, k);
      TotalLeftOf(s, schedule, keys - {k}, first);
      assert keys - {first} - {k} == keys - {k} - {first};
    }
  }

  lemma {:induction false} CompareTotals(s: State, s': State, schedule: seq<nat>, keys: set<Key>, work: set<Key>, lost: set<Key>)
    requires work <= keys && lost <= keys
    requires forall k | k in keys ::
      Left(s', schedule, k) + (if k in work then 1 else 0) <= Left(s, schedule, k) + (if k in lost then 1 else 0)
    ensures TotalLeft(s', schedule, keys) + |work| <= TotalLeft(s, schedule, keys) + |lost|
  {
    if keys != {} {
      var k :| k in keys;
      CompareTotals(s, s', schedule, keys - {k}, work - {k}, lost - {k});
      TotalLeftOf(s, schedule, keys, k);
      TotalLeftOf(s', schedule, keys, k);
    }
  }

  /** Statements that claim a row or record an outcome; and crashes of workers. */
  function Work(st: Step): nat
  {
    match st
    case ClaimBatch(_, _, picked) => |picked|
    case Deliver(_, _) => 1
    case _ => 0
  }

  function TotalWork(steps: seq<Step>): nat
  {
    if steps == [] then 0 else Work(steps[0]) + TotalWork(steps[1..])
  }

  function Crashes(steps: seq<Step>): nat
  {
    if steps == [] then 0 else (if steps[0].Crash? then 1 else 0) + Crashes(steps[1..])
  }

  lemma ClaimedWork(s: State, st: Step, schedule: seq<nat>, k: Key)
    requires Enabled(s, st) && st.ClaimBatch?
    requires k in s.tables.deliveries && KeyOk(s, k, schedule)
    requires k in st.picked ==> k in DueKeys(s.tables, s.now) && !Live(s, Current(s, k))
    ensures Left(Apply(s, st, schedule), schedule, k) + (if k in st.picked then 1 else 0) <= Left(s, schedule, k)
  {
  }

  lemma ClaimWork(s: State, st: Step, schedule: seq<nat>)
    requires Inv(s, schedule) && Enabled(s, st) && st.ClaimBatch?
    ensures TotalLeft(Apply(s, st, schedule), schedule, s.tables.deliveries.Keys) + |st.picked|
         <= TotalLeft(s, schedule, s.tables.deliveries.Keys)
  {
    assert st.picked <= DueKeys(s.tables, s.now);
    forall k | k in s.tables.deliveries.Keys
      ensures Left(Apply(s, st, schedule), schedule, k) + (if k in st.picked then 1 else 0) <= Left(s, schedule, k)
    {
      if k in st.picked { NotLiveWhenDue(s, k); }
      ClaimedWork(s, st, schedule, k);
    }
    CompareTotals(s, Apply(s, st, schedule), schedule, s.tables.deliveries.Keys, st.picked, {});
  }

  lemma OtherWork(s: State, st: Step, schedule: seq<nat>, k: Key)
    requires Enabled(s, st) && !st.NewJob? && !st.ClaimBatch?
    requires k in s.tables.deliveries && KeyOk(s, k, schedule)
    requires (st.Deliver? || st.Show? || st.Crash?) ==> st.f in s.flights && FlightOk(s, st.f)
    ensures Left(Apply(s, st, schedule), schedule, k) + (if st.Deliver? && st.f.key == k then 1 else 0)
         <= Left(s, schedule, k) + (if st.Crash? && st.f.key == k then 1 else 0)
  {
  }

  lemma SameRows(s: State, st: Step, schedule: seq<nat>)
    requires Inv(s, schedule) && Enabled(s, st) && !st.NewJob?
    ensures Apply(s, st, schedule).tables.deliveries.Keys == s.tables.deliveries.Keys
  {
  }

  lemma OtherStepWork(s: State, st: Step, schedule: seq<nat>)
    requires Inv(s, schedule) && Enabled(s, st) && !st.NewJob? && !st.ClaimBatch?
    ensures TotalLeft(Apply(s, st, schedule), schedule, s.tables.deliveries.Keys) + Work(st)
         <= TotalLeft(s, schedule, s.tables.deliveries.Keys) + (if st.Crash? then 1 else 0)
  {
    if st.Deliver? || st.Show? || st.Crash? { assert FlightOk(s, st.f); }
    var work := if st.Deliver? then {st.f.key} else {};
    var lost := if st.Crash? then {st.f.key} else {};
    forall k | k in s.tables.deliveries.Keys
      ensures Left(Apply(s, st, schedule), schedule, k) + (if k in work then 1 else 0)
           <= Left(s, schedule, k) + (if k in lost then 1 else 0)
    {
      assert KeyOk(s, k, schedule);
      OtherWork(s, st, schedule, k);
    }
    CompareTotals(s, Apply(s, st, schedule), schedule, s.tables.deliveries.Keys, work, lost);
  }

  lemma StepWork(s: State, st: Step, schedule: seq<nat>)
    requires Inv(s, schedule) && Enabled(s, st) && !st.NewJob?
    ensures var s' := Apply(s, st, schedule);
            && s'.tables.deliveries.Keys == s.tables.deliveries.Keys
            && TotalLeft(s', schedule, s.tables.deliveries.Keys) + Work(st)
               <= TotalLeft(s, schedule, s.tables.deliveries.Keys) + (if st.Crash? then 1 else 0)
  {
    SameRows(s, st, schedule);
    if st.ClaimBatch? {
      ClaimWork(s, st, schedule);
    } else {
      OtherStepWork(s, st, schedule);
    }
  }

  lemma {:induction false} LeftRange(s: State, schedule: seq<nat>, keys: set<Key>, most: nat)
    requires forall k | k in keys :: 0 <= Left(s, schedule, k) <= most
    ensures 0 <= TotalLeft(s, schedule, keys) <= most * |keys|
  {
    if keys != {} {
      var k :| k in keys;
      LeftRange(s, schedule, keys - {k}, most);
      TotalLeftOf(s, schedule, keys, k);
      Distribute(most, |keys - {k}|);
    }
  }

  lemma LeftOfOne(s: State, schedule: seq<nat>, k: Key)
    requires Inv(s, schedule) && k in s.tables.deliveries
    ensures 0 <= Left(s, schedule, k) <= 2 * |schedule|
  {
  }

  lemma Distribute(a: nat, n: nat)
    ensures a * (n + 1) == a * n + a
  {
  }

  lemma {:induction false} DrainWork(tr: seq<State>, steps: seq<Step>, schedule: seq<nat>, i: nat, j: nat)
    requires IsRun(tr, steps, schedule) && i <= j < |tr|
    requires forall n | i <= n < j :: !steps[n].NewJob?
    ensures tr[j].tables.deliveries.Keys == tr[i].tables.deliveries.Keys
    ensures TotalLeft(tr[j], schedule, tr[j].tables.deliveries.Keys) + TotalWork(steps[i..j])
         <= TotalLeft(tr[i], schedule, tr[i].tables.deliveries.Keys) + Crashes(steps[i..j])
    decreases j - i
  {
    if i < j {
      Reachable(tr, steps, schedule, i);
      StepWork(tr[i], steps[i], schedule);
      DrainWork(tr, steps, schedule, i + 1, j);
      assert steps[i..j][0] == steps[i] && steps[i..j][1..] == steps[i + 1..j];
    }
  }

  /**
   * With no new job, claims and recorded outcomes together number at most two per delivery and
   * schedule entry, plus one per crash: the queue drains.
   */
  lemma DrainEnds(tr: seq<State>, steps: seq<Step>, schedule: seq<nat>, i: nat, j: nat)
    requires IsRun(tr, steps, schedule) && i <= j < |tr|
    requires forall n | i <= n < j :: !steps[n].NewJob?
    ensures TotalWork(steps[i..j]) <= 2 * |schedule| * |tr[i].tables.deliveries| + Crashes(steps[i..j])
  {
    Reachable(tr, steps, schedule, i);
    Reachable(tr, steps, schedule, j);
    forall n, k | n in {i, j} && k in tr[n].tables.deliveries ensures 0 <= Left(tr[n], schedule, k) <= 2 * |schedule| {
      LeftOfOne(tr[n], schedule, k);
    }
    LeftRange(tr[i], schedule, tr[i].tables.deliveries.Keys, 2 * |schedule|);
    LeftRange(tr[j], schedule, tr[j].tables.deliveries.Keys, 2 * |schedule|);
    DrainWork(tr, steps, schedule, i, j);
    assert |tr[i].tables.deliveries.Keys| == |tr[i].tables.deliveries|;
  }
}
