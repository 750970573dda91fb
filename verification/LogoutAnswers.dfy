/**
 * What the clients' answers do to their deliveries, over whole runs of the queue: which answer is the last
 * word and what it says, how long a retry waits, and what the participant shows in the end.
 */
module LogoutAnswers {
  import opened Common
  import opened LogoutQueue
  import opened LogoutProtocol

  /** The step hands the worker's answer for this delivery to `deliver`. */
  predicate Answers(st: Step, k: Key)
  {
    st.Deliver? && st.f.key == k
  }

  /** A 2xx answer. */
  predicate Accepted(a: Answer)
  {
    a.Http? && 200 <= a.code <= 299
  }

  /** An insecure endpoint, or a 4xx answer other than 408 and 429. */
  predicate Refused(a: Answer)
  {
    a.InsecureUri? || (a.Http? && 400 <= a.code <= 499 && a.code != 408 && a.code != 429)
  }

  /** A step that does not answer a delivery leaves its status alone, or creates it PENDING. */
  lemma OtherOutcome(s: State, st: Step, schedule: seq<nat>, k: Key)
    requires Enabled(s, st) && k in Apply(s, st, schedule).tables.deliveries && !Answers(st, k)
    requires k in s.tables.deliveries ==> k.job in s.tables.jobs
    ensures k !in s.tables.deliveries ==> Apply(s, st, schedule).tables.deliveries[k].status.Pending?
    ensures k in s.tables.deliveries ==> Apply(s, st, schedule).tables.deliveries[k].status == s.tables.deliveries[k].status
  {
    if st.NewJob? && k !in s.tables.deliveries { assert k in KeysOf(st.id, st.clients); }
  }

  /** What an answer does to its delivery. */
  lemma OwnOutcome(s: State, st: Step, schedule: seq<nat>, k: Key)
    requires Enabled(s, st) && Answers(st, k) && FlightOk(s, st.f)
    ensures k in s.tables.deliveries && !s.tables.deliveries[k].status.Terminal() && k in Apply(s, st, schedule).tables.deliveries
    ensures var d := Apply(s, st, schedule).tables.deliveries[k];
      && d.attempts == st.f.attempt
      && (d.status.Succeeded? <==> Accepted(st.answer)) && (d.status.Failed? <==> Refused(st.answer))
      && (d.status.NoEndpoint? <==> st.answer.NoUri?) && !d.status.Pending?
      && (d.status.Dead? ==> st.f.attempt >= |schedule|)
      && (d.status.Retry? ==> st.f.attempt < |schedule| && d.nextAt == s.now + 1000 * schedule[st.f.attempt])
  {
  }

  lemma StepOutcome(s: State, st: Step, schedule: seq<nat>, k: Key)
    requires Inv(s, schedule) && Enabled(s, st) && k in Apply(s, st, schedule).tables.deliveries
    ensures k !in s.tables.deliveries ==> Apply(s, st, schedule).tables.deliveries[k].status.Pending? && !Answers(st, k)
    ensures k in s.tables.deliveries && !Answers(st, k) ==>
      Apply(s, st, schedule).tables.deliveries[k].status == s.tables.deliveries[k].status
    ensures Answers(st, k) ==>
      && k in s.tables.deliveries && !s.tables.deliveries[k].status.Terminal()
      && var d := Apply(s, st, schedule).tables.deliveries[k];
        && (d.status.Succeeded? <==> Accepted(st.answer)) && (d.status.Failed? <==> Refused(st.answer))
        && (d.status.NoEndpoint? <==> st.answer.NoUri?)
  {
    if Answers(st, k) {
      assert FlightOk(s, st.f);
      OwnOutcome(s, st, schedule, k);
    } else {
      assert k in s.tables.deliveries ==> KeyOk(s, k, schedule);
      OtherOutcome(s, st, schedule, k);
    }
  }

  ghost predicate EverAnswered(steps: seq<Step>, i: nat, k: Key)
    requires i <= |steps|
  {
    exists n :: 0 <= n < i && Answers(steps[n], k)
  }

  /** A delivery that is not there yet was never answered. */
  lemma {:induction false} NotAnswered(tr: seq<State>, steps: seq<Step>, schedule: seq<nat>, i: nat, k: Key)
    requires IsRun(tr, steps, schedule) && i < |tr| && k !in tr[i].tables.deliveries
    ensures !EverAnswered(steps, i, k)
  {
    forall n | 0 <= n < i ensures !Answers(steps[n], k) {
      if Answers(steps[n], k) {
        StepAt(tr, steps, schedule, n);
        Reachable(tr, steps, schedule, n);
        assert FlightOk(tr[n], steps[n].f);
        FinishedForever(tr, steps, schedule, n, i, k);
      }
    }
  }

  /** Some answer to this delivery before step `i` was the last word on it. */
  ghost predicate WasAccepted(steps: seq<Step>, i: nat, k: Key)
    requires i <= |steps|
  {
    exists n :: 0 <= n < i && Answers(steps[n], k) && steps[n].answer.Http? && 200 <= steps[n].answer.code <= 299
  }

  ghost predicate WasRefused(steps: seq<Step>, i: nat, k: Key)
    requires i <= |steps|
  {
    exists n :: 0 <= n < i && Answers(steps[n], k)
                && (steps[n].answer.InsecureUri?
                    || (steps[n].answer.Http? && 400 <= steps[n].answer.code <= 499
                        && steps[n].answer.code != 408 && steps[n].answer.code != 429))
  }

  ghost predicate HadNoUri(steps: seq<Step>, i: nat, k: Key)
    requires i <= |steps|
  {
    exists n :: 0 <= n < i && Answers(steps[n], k) && steps[n].answer.NoUri?
  }

  /** One more step to look back on. */
  lemma OneMoreAnswer(steps: seq<Step>, i: nat, k: Key)
    requires i < |steps|
    ensures WasAccepted(steps, i + 1, k) <==> WasAccepted(steps, i, k) || (Answers(steps[i], k) && Accepted(steps[i].answer))
    ensures WasRefused(steps, i + 1, k) <==> WasRefused(steps, i, k) || (Answers(steps[i], k) && Refused(steps[i].answer))
    ensures HadNoUri(steps, i + 1, k) <==> HadNoUri(steps, i, k) || (Answers(steps[i], k) && steps[i].answer.NoUri?)
  {
  }

  /**
   * Over every run, a delivery is SUCCEEDED if and only if some answer to it was 2xx; FAILED if and only
   * if the endpoint was insecure or some answer was a 4xx other than 408 and 429; and NO_ENDPOINT if and
   * only if the client had no logout URI.
   */
  lemma {:induction false} AnswerDecides(tr: seq<State>, steps: seq<Step>, schedule: seq<nat>, i: nat, k: Key)
    requires IsRun(tr, steps, schedule) && i < |tr| && k in tr[i].tables.deliveries
    ensures tr[i].tables.deliveries[k].status == Succeeded <==> WasAccepted(steps, i, k)
    ensures tr[i].tables.deliveries[k].status == Failed <==> WasRefused(steps, i, k)
    ensures tr[i].tables.deliveries[k].status == NoEndpoint <==> HadNoUri(steps, i, k)
  {
    if i > 0 {
      StepAt(tr, steps, schedule, i - 1);
      Reachable(tr, steps, schedule, i - 1);
      StepOutcome(tr[i - 1], steps[i - 1], schedule, k);
      OneMoreAnswer(steps, i - 1, k);
      if k in tr[i - 1].tables.deliveries {
        AnswerDecides(tr, steps, schedule, i - 1, k);
      } else {
        NotAnswered(tr, steps, schedule, i - 1, k);
      }
    }
  }

  /** The answer after which a delivery waits: neither final nor the last attempt. */
  predicate Waits(st: Step, schedule: seq<nat>, k: Key)
  {
    && Answers(st, k) && !Accepted(st.answer) && !Refused(st.answer) && !st.answer.NoUri?
    && st.f.attempt < |schedule|
  }

  /** Unless it was claimed since, the row is due the schedule's delay after that answer. */
  predicate DueAfter(d: Delivery, at: int, st: Step, schedule: seq<nat>)
    requires st.Deliver? && st.f.attempt < |schedule|
  {
    st.f.attempt <= d.attempts && (d.attempts == st.f.attempt ==> d.nextAt == at + 1000 * schedule[st.f.attempt])
  }

  /** Only an answer or a claim changes when a delivery is due, and a claim counts an attempt. */
  lemma OnlyClaims(s: State, st: Step, schedule: seq<nat>, k: Key)
    requires Inv(s, schedule) && Enabled(s, st) && k in s.tables.deliveries && !Answers(st, k)
    ensures k in Apply(s, st, schedule).tables.deliveries
    ensures var d, d' := s.tables.deliveries[k], Apply(s, st, schedule).tables.deliveries[k];
      || (d'.attempts == d.attempts && d'.nextAt == d.nextAt)
      || (st.ClaimBatch? && k in st.picked && d'.attempts == d.attempts + 1 && d'.nextAt == s.now + 60_000
          && d.nextAt <= s.now && (d.status.Pending? || d.status.Retry?))
  {
    if st.ClaimBatch? && k in st.picked { assert k in DueKeys(s.tables, s.now); }
  }

  lemma RetryMoves(s: State, st: Step, schedule: seq<nat>, k: Key)
    requires Inv(s, schedule) && Enabled(s, st) && k in Apply(s, st, schedule).tables.deliveries
    requires Apply(s, st, schedule).tables.deliveries[k].status.Retry?
    ensures var d := Apply(s, st, schedule).tables.deliveries[k];
      if Answers(st, k) then Waits(st, schedule, k) && DueAfter(d, s.now, st, schedule)
      else k in s.tables.deliveries && s.tables.deliveries[k].status.Retry?
           && (d.attempts > s.tables.deliveries[k].attempts || (d.attempts == s.tables.deliveries[k].attempts && d.nextAt == s.tables.deliveries[k].nextAt))
  {
    if Answers(st, k) {
      assert FlightOk(s, st.f);
      OwnOutcome(s, st, schedule, k);
    } else {
      assert k in s.tables.deliveries ==> KeyOk(s, k, schedule);
      OtherOutcome(s, st, schedule, k);
      if k in s.tables.deliveries { OnlyClaims(s, st, schedule, k); }
    }
  }

  /** A RETRY row that was not claimed since waits for the schedule's delay after its last answer. */
  lemma {:induction false} RetryWaits(tr: seq<State>, steps: seq<Step>, schedule: seq<nat>, i: nat, k: Key) returns (n: nat)
    requires IsRun(tr, steps, schedule) && i < |tr| && k in tr[i].tables.deliveries && tr[i].tables.deliveries[k].status == Retry
    ensures n < i && Waits(steps[n], schedule, k) && DueAfter(tr[i].tables.deliveries[k], tr[n].now, steps[n], schedule)
  {
    RetryBack(tr, steps, schedule, i, k);
    if Answers(steps[i - 1], k) {
      n := i - 1;
    } else {
      n := RetryWaits(tr, steps, schedule, i - 1, k);
    }
  }

  lemma RetryBack(tr: seq<State>, steps: seq<Step>, schedule: seq<nat>, i: nat, k: Key)
    requires IsRun(tr, steps, schedule) && i < |tr| && k in tr[i].tables.deliveries && tr[i].tables.deliveries[k].status == Retry
    ensures i > 0
    ensures var s, st, d := tr[i - 1], steps[i - 1], tr[i].tables.deliveries[k];
      if Answers(st, k) then Waits(st, schedule, k) && DueAfter(d, s.now, st, schedule)
      else k in s.tables.deliveries && s.tables.deliveries[k].status == Retry
           && (d.attempts > s.tables.deliveries[k].attempts || (d.attempts == s.tables.deliveries[k].attempts && d.nextAt == s.tables.deliveries[k].nextAt))
  {
    StepAt(tr, steps, schedule, i - 1);
    Reachable(tr, steps, schedule, i - 1);
    RetryMoves(tr[i - 1], steps[i - 1], schedule, k);
  }

  /** A delivery is tried again no earlier than the schedule's delay after the answer before. */
  lemma RetriedNoEarlier(tr: seq<State>, steps: seq<Step>, schedule: seq<nat>, i: nat, k: Key) returns (n: nat)
    requires IsRun(tr, steps, schedule) && i < |steps| && steps[i].ClaimBatch? && k in steps[i].picked
    requires k in tr[i].tables.deliveries && tr[i].tables.deliveries[k].status == Retry
    ensures n < i && Waits(steps[n], schedule, k) && steps[n].f.attempt <= tr[i].tables.deliveries[k].attempts
    ensures tr[i].tables.deliveries[k].attempts == steps[n].f.attempt ==>
              tr[i].now >= tr[n].now + 1000 * schedule[steps[n].f.attempt]
  {
    n := RetryWaits(tr, steps, schedule, i, k);
    StepAt(tr, steps, schedule, i);
    assert k in DueKeys(tr[i].tables, tr[i].now);
  }

  /** Once the recorder has written it, the participant shows what the answer said. */
  lemma AnswerIsShown(tr: seq<State>, steps: seq<Step>, schedule: seq<nat>, i: nat, k: Key)
    requires IsRun(tr, steps, schedule) && i < |tr| && k in tr[i].tables.deliveries && k.job in tr[i].tables.jobs
    requires tr[i].tables.deliveries[k].status.Terminal()
    requires Current(tr[i], k) in tr[i].flights ==> !tr[i].flights[Current(tr[i], k)].phase.Recorded?
    ensures var p := Participant(tr[i].tables.jobs[k.job].sid, k.client);
      && p in tr[i].tables.participants
      && tr[i].tables.participants[p] == Some(if WasAccepted(steps, i, k) then LogoutSucceeded
                                              else if HadNoUri(steps, i, k) then LogoutNoEndpoint else LogoutFailed)
  {
    Reachable(tr, steps, schedule, i);
    AnswerDecides(tr, steps, schedule, i, k);
    assert KeyOk(tr[i], k, schedule);
  }
}
