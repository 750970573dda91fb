/**
 * Fixed-window counters: how many hits a limit lets through per window and in any span of time, when
 * the calls interleave at their Redis commands and may crash between them.
 */
module RateLimit {
  import opened Common

  /** Clock in milliseconds; Redis deadlines come in whole seconds. */
  const SECOND := 1000

  /** A counter key; `deadline` is None when it has no expiry yet. */
  datatype Counter = Counter(count: nat, deadline: Option<int>)

  predicate Alive(k: Option<Counter>, now: int)
  {
    k.Some? && (k.value.deadline.None? || now < k.value.deadline.value)
  }

  /** INCR creates the key when it is missing or expired. */
  function Incr(k: Option<Counter>, now: int): Counter
  {
    if Alive(k, now) then k.value.(count := k.value.count + 1) else Counter(1, None)
  }

  /** TTL of an existing key: -1 without an expiry, else seconds rounded to the nearest. */
  function Ttl(k: Counter, now: int): int
  {
    if k.deadline.None? then -1 else (k.deadline.value - now + SECOND / 2) / SECOND
  }

  /** EXPIRE does nothing to a missing key. */
  function Expire(k: Option<Counter>, now: int, seconds: nat): Option<Counter>
  {
    if Alive(k, now) then Some(k.value.(deadline := Some(now + seconds * SECOND))) else k
  }

  datatype RateLimitResult = RateLimitResult(allowed: bool, retryAfter: int)

  /** The deadline of a cooldown key after SET NX EX, and whether the key was set. */
  function AfterCooldown(cooling: Option<int>, seconds: int, now: int): Option<int>
  {
    if seconds <= 0 || Cooling(cooling, now) then cooling else Some(now + seconds * SECOND)
  }

  predicate Cooling(cooling: Option<int>, now: int)
  {
    cooling.Some? && now < cooling.value
  }

  class RateLimitService {
    var key: Option<Counter>
    var cooling: Option<int>

    constructor ()
      ensures key == None && cooling == None
    {
      key, cooling := None, None;
    }

    /** Seconds left, or 0 when the caller may go on. */
    method Cooldown(seconds: int, now: int) returns (wait: nat)
      modifies this`cooling
      ensures cooling == AfterCooldown(old(cooling), seconds, now)
      ensures if seconds <= 0 then wait == 0 && cooling == old(cooling)
              else if old(cooling).None? || old(cooling).value <= now then wait == 0 && cooling == Some(now + 1000 * seconds)
              else wait == (var left := (old(cooling).value - now + 500) / 1000; if left < 1 then 1 else left) && cooling == old(cooling)
    {
      if seconds <= 0 { return 0; }
      if cooling.None? || cooling.value <= now {
        cooling := Some(now + seconds * SECOND);
        return 0;
      }
      var ttl := (cooling.value - now + SECOND / 2) / SECOND;
      return if ttl < 1 then 1 else ttl;
    }

    /** One counter; the clock is read at the MULTI and again at the EXPIRE. */
    method Hit(limit: nat, windowSeconds: nat, now: int, later: int) returns (r: RateLimitResult)
      requires now <= later && windowSeconds >= 1
      modifies this`key
      ensures var open := old(key).Some? && (old(key).value.deadline.None? || now < old(key).value.deadline.value);
              && key.Some? && key.value.count == (if open then old(key).value.count + 1 else 1)
              && (r.allowed <==> (if open then old(key).value.count + 1 else 1) <= limit)
              && key.value.deadline == (if open && old(key).value.deadline.Some? then old(key).value.deadline
                                        else Some(later + 1000 * windowSeconds))
              // seconds left of the window, rounded to the nearest; the whole window when none are left or it has no end yet
              && r.retryAfter == (if open && old(key).value.deadline.Some? && (old(key).value.deadline.value - now + 500) / 1000 > 0
                                  then (old(key).value.deadline.value - now + 500) / 1000 else windowSeconds)
      ensures key == if Incr(old(key), now).deadline.None? then Expire(Some(Incr(old(key), now)), later, windowSeconds)
                     else Some(Incr(old(key), now))
      ensures key.value.deadline.Some?
    {
      var counter := if Alive(key, now) then Counter(key.value.count + 1, key.value.deadline) else Counter(1, None);
      var ttl := Ttl(counter, now);
      key := Some(counter);
      if ttl < 0 { key := Expire(key, later, windowSeconds); }
      r := RateLimitResult(counter.count <= limit, if ttl > 0 then ttl else windowSeconds);
    }
  }

  // ---- interleaved runs -----------------------------------------------------------------------------

  /** A hit that was let through, and the window (the life of the key) it fell into. */
  datatype Pass = Pass(at: int, window: nat)

  /** `born` holds the time each life of the key began; `owed` counts callers that still owe their EXPIRE. */
  datatype State = State(now: int, key: Option<Counter>, owed: nat, born: seq<int>, passes: seq<Pass>)

  /** MULTI and EXPIRE of one call are separate steps; Drop is a call that dies between them. */
  datatype Step = Tick(to: int) | Multi | SetExpiry | Drop

  predicate Enabled(s: State, st: Step)
  {
    match st
    case Tick(to) => s.now <= to
    case Multi => true
    case SetExpiry => s.owed > 0
    case Drop => s.owed > 0
  }

  function Apply(s: State, st: Step, limit: nat, window: nat): State
    requires Enabled(s, st)
  {
    match st
    case Tick(to) => s.(now := to)
    case Multi =>
      var c := Incr(s.key, s.now);
      var born := if Alive(s.key, s.now) then s.born else s.born + [s.now];
      State(s.now, Some(c), if Ttl(c, s.now) < 0 then s.owed + 1 else s.owed, born,
            if c.count <= limit then s.passes + [Pass(s.now, |born|)] else s.passes)
    case SetExpiry => s.(key := Expire(s.key, s.now, window), owed := s.owed - 1)
    case Drop => s.(owed := s.owed - 1)
  }

  function InWindow(passes: seq<Pass>, w: nat): nat
  {
    if passes == [] then 0
    else InWindow(passes[..|passes| - 1], w) + if passes[|passes| - 1].window == w then 1 else 0
  }

  function InSpan(passes: seq<Pass>, start: int, seconds: nat): nat
  {
    if passes == [] then 0
    else InSpan(passes[..|passes| - 1], start, seconds)
         + if start <= passes[|passes| - 1].at < start + seconds * SECOND then 1 else 0
  }

  /** Windows are at least `window` seconds apart. */
  ghost predicate BornOk(s: State, window: nat)
  {
    && (forall w :: 0 <= w < |s.born| ==> s.born[w] <= s.now)
    && (forall v, w :: 0 <= v < w < |s.born| ==> s.born[v] + window * SECOND <= s.born[w])
  }

  ghost predicate KeyOk(s: State, window: nat)
  {
    && (s.key.None? <==> s.born == [])
    && (s.key.Some? && s.key.value.deadline.Some? ==> s.born[|s.born| - 1] + window * SECOND <= s.key.value.deadline.value)
  }

  /** A pass happened after its window began and before the next one did. */
  ghost predicate PassesOk(s: State)
  {
    forall i :: 0 <= i < |s.passes| ==>
      && 1 <= s.passes[i].window <= |s.born| && s.born[s.passes[i].window - 1] <= s.passes[i].at <= s.now
      && (s.passes[i].window < |s.born| ==> s.passes[i].at <= s.born[s.passes[i].window])
  }

  ghost predicate CountsOk(s: State, limit: nat)
  {
    && (forall w: nat :: InWindow(s.passes, w) <= limit)
    && (forall w: nat :: w > |s.born| ==> InWindow(s.passes, w) == 0)
    && (s.key.Some? ==> InWindow(s.passes, |s.born|) <= s.key.value.count)
  }

  ghost predicate Inv(s: State, limit: nat, window: nat)
  {
    BornOk(s, window) && KeyOk(s, window) && PassesOk(s) && CountsOk(s, limit)
  }

  /** The lives of the key after a MULTI. */
  function BornAfter(s: State): seq<int>
  {
    if Alive(s.key, s.now) then s.born else s.born + [s.now]
  }

  /** A key that is gone had lived for a whole window. */
  lemma {:induction false} BornKept(s: State, window: nat)
    requires BornOk(s, window) && KeyOk(s, window)
    ensures var born := BornAfter(s);
      && born != []
      && (forall w :: 0 <= w < |born| ==> born[w] <= s.now)
      && (forall v, w :: 0 <= v < w < |born| ==> born[v] + window * SECOND <= born[w])
  {
  }

  lemma {:induction false} MultiKeepsPasses(s: State, limit: nat, window: nat)
    requires Inv(s, limit, window)
    ensures PassesOk(Apply(s, Multi, limit, window))
  {
    var s' := Apply(s, Multi, limit, window);
    BornKept(s, window);
    forall i | 0 <= i < |s.passes|
      ensures s.passes[i].window < |s'.born| ==> s.passes[i].at <= s'.born[s.passes[i].window]
    {
      if s.passes[i].window < |s.born| { assert s'.born[s.passes[i].window] == s.born[s.passes[i].window]; }
    }
  }

  lemma {:induction false} MultiKeepsCounts(s: State, limit: nat, window: nat)
    requires Inv(s, limit, window)
    ensures CountsOk(Apply(s, Multi, limit, window), limit)
  {
  }

  lemma {:induction false} MultiKeepsWindows(s: State, limit: nat, window: nat)
    requires BornOk(s, window) && KeyOk(s, window)
    ensures BornOk(Apply(s, Multi, limit, window), window) && KeyOk(Apply(s, Multi, limit, window), window)
  {
    BornKept(s, window);
    assert Apply(s, Multi, limit, window).born == BornAfter(s);
  }

  lemma {:induction false} MultiKeeps(s: State, limit: nat, window: nat)
    requires Inv(s, limit, window)
    ensures Inv(Apply(s, Multi, limit, window), limit, window)
  {
    MultiKeepsWindows(s, limit, window);
    MultiKeepsPasses(s, limit, window);
    MultiKeepsCounts(s, limit, window);
  }

  /** An EXPIRE never brings the deadline forward past a whole window. */
  lemma {:induction false} ExpiryKeeps(s: State, limit: nat, window: nat)
    requires Inv(s, limit, window) && s.owed > 0
    ensures Inv(Apply(s, SetExpiry, limit, window), limit, window)
  {
    if Alive(s.key, s.now) { assert s.born[|s.born| - 1] <= s.now; }
    SameWindows(s, Apply(s, SetExpiry, limit, window), window);
  }

  lemma {:induction false} SameWindows(s: State, s': State, window: nat)
    requires BornOk(s, window) && PassesOk(s) && s.now <= s'.now && s'.born == s.born && s'.passes == s.passes
    ensures BornOk(s', window) && PassesOk(s')
  {
  }

  lemma {:induction false} TickKeeps(s: State, to: int, limit: nat, window: nat)
    requires Inv(s, limit, window) && s.now <= to
    ensures Inv(Apply(s, Tick(to), limit, window), limit, window)
  {
    SameWindows(s, Apply(s, Tick(to), limit, window), window);
  }

  lemma {:induction false} DropKeeps(s: State, limit: nat, window: nat)
    requires Inv(s, limit, window) && s.owed > 0
    ensures Inv(Apply(s, Drop, limit, window), limit, window)
  {
    SameWindows(s, Apply(s, Drop, limit, window), window);
  }

  lemma {:induction false} StepKeeps(s: State, st: Step, limit: nat, window: nat)
    requires Inv(s, limit, window) && Enabled(s, st)
    ensures Inv(Apply(s, st, limit, window), limit, window)
  {
    match st
    case Tick(to) => TickKeeps(s, to, limit, window);
    case Multi => MultiKeeps(s, limit, window);
    case SetExpiry => ExpiryKeeps(s, limit, window);
    case Drop => DropKeeps(s, limit, window);
  }

  ghost predicate IsRun(tr: seq<State>, steps: seq<Step>, limit: nat, window: nat)
  {
    && |tr| == |steps| + 1
    && tr[0].key == None && tr[0].owed == 0 && tr[0].born == [] && tr[0].passes == []
    && forall i | 0 <= i < |steps| :: Enabled(tr[i], steps[i]) && tr[i + 1] == Apply(tr[i], steps[i], limit, window)
  }

  lemma {:induction false} Reachable(tr: seq<State>, steps: seq<Step>, limit: nat, window: nat, i: nat)
    requires IsRun(tr, steps, limit, window) && i < |tr|
    ensures Inv(tr[i], limit, window)
  {
    if i > 0 {
      Reachable(tr, steps, limit, window, i - 1);
      assert tr[i - 1 + 1] == Apply(tr[i - 1], steps[i - 1], limit, window);
      StepKeeps(tr[i - 1], steps[i - 1], limit, window);
    }
  }

  /** Each window lets at most `limit` hits through. */
  lemma {:induction false} WindowBounded(tr: seq<State>, steps: seq<Step>, limit: nat, window: nat, i: nat, w: nat)
    requires IsRun(tr, steps, limit, window) && i < |tr|
    ensures InWindow(tr[i].passes, w) <= limit
  {
    Reachable(tr, steps, limit, window, i);
  }

  // ---- which hits pass ------------------------------------------------------------------------------

  /** Calls that reached their MULTI at steps b to i. */
  function Hits(steps: seq<Step>, b: nat, i: nat): nat
    requires b <= i <= |steps|
  {
    if b == i then 0 else Hits(steps, b, i - 1) + if steps[i - 1].Multi? then 1 else 0
  }

  /** The key is alive: it exists, and has no deadline or one that is still to come. */
  predicate Open(s: State)
  {
    s.key.Some? && (s.key.value.deadline.None? || s.now < s.key.value.deadline.value)
  }

  lemma RunStep(tr: seq<State>, steps: seq<Step>, limit: nat, window: nat, i: nat)
    requires IsRun(tr, steps, limit, window) && i < |steps|
    ensures Enabled(tr[i], steps[i]) && tr[i + 1] == Apply(tr[i], steps[i], limit, window)
  {
  }

  lemma HitMoves(s: State, st: Step, limit: nat, window: nat)
    requires Enabled(s, st) && Open(Apply(s, st, limit, window))
    ensures var s' := Apply(s, st, limit, window);
      if st.Multi? then s'.key.value.count == (if Open(s) then s.key.value.count + 1 else 1)
      else Open(s) && s'.key.value.count == s.key.value.count
  {
  }

  /** An open window began with a MULTI on a closed one, stayed open since, and counts every MULTI since. */
  lemma {:induction false} WindowStart(tr: seq<State>, steps: seq<Step>, limit: nat, window: nat, i: nat) returns (b: nat)
    requires IsRun(tr, steps, limit, window) && i < |tr| && Open(tr[i])
    ensures b < i && steps[b] == Multi && !Open(tr[b]) && (forall m | b < m <= i :: Open(tr[m]))
    ensures tr[i].key.value.count == Hits(steps, b, i)
    decreases i
  {
    RunStep(tr, steps, limit, window, i - 1);
    HitMoves(tr[i - 1], steps[i - 1], limit, window);
    if Open(tr[i - 1]) {
      b := WindowStart(tr, steps, limit, window, i - 1);
    } else {
      b := i - 1;
      assert Hits(steps, b, b) == 0;
    }
  }

  /** A hit passes if and only if fewer than `limit` came before it in its window. */
  lemma {:induction false} FirstHitsPass(tr: seq<State>, steps: seq<Step>, limit: nat, window: nat, i: nat) returns (b: nat)
    requires IsRun(tr, steps, limit, window) && i < |steps| && steps[i] == Multi
    ensures if Open(tr[i]) then b < i && steps[b] == Multi && !Open(tr[b]) && (forall m | b < m <= i :: Open(tr[m])) else b == i
    ensures tr[i + 1].passes == if Hits(steps, b, i) < limit then tr[i].passes + [Pass(tr[i].now, |tr[i + 1].born|)] else tr[i].passes
  {
    RunStep(tr, steps, limit, window, i);
    if Open(tr[i]) { b := WindowStart(tr, steps, limit, window, i); } else { b := i; }
  }

  /** Once a window has its end, it ends a whole windowSeconds after some EXPIRE made while it was open. */
  lemma {:induction false} WindowEnd(tr: seq<State>, steps: seq<Step>, limit: nat, window: nat, i: nat) returns (e: nat)
    requires IsRun(tr, steps, limit, window) && i < |tr| && tr[i].key.Some? && tr[i].key.value.deadline.Some?
    ensures e < i && steps[e] == SetExpiry && Open(tr[e]) && tr[i].key.value.deadline == Some(tr[e].now + 1000 * window)
  {
    RunStep(tr, steps, limit, window, i - 1);
    if steps[i - 1] == SetExpiry && Open(tr[i - 1]) {
      e := i - 1;
    } else {
      e := WindowEnd(tr, steps, limit, window, i - 1);
    }
  }

  /** When every pass in the span belongs to window v or its successor, the span holds no more than both. */
  lemma {:induction false} SpanInTwo(passes: seq<Pass>, start: int, seconds: nat, v: nat)
    requires forall i :: 0 <= i < |passes| && start <= passes[i].at < start + seconds * SECOND ==> v <= passes[i].window <= v + 1
    ensures InSpan(passes, start, seconds) <= InWindow(passes, v) + InWindow(passes, v + 1)
  {
    if passes != [] {
      var before := passes[..|passes| - 1];
      assert forall i :: 0 <= i < |before| ==> before[i] == passes[i];
      SpanInTwo(before, start, seconds, v);
    }
  }

  lemma {:induction false} EmptySpan(passes: seq<Pass>, start: int, seconds: nat)
    requires forall i :: 0 <= i < |passes| ==> !(start <= passes[i].at < start + seconds * SECOND)
    ensures InSpan(passes, start, seconds) == 0
  {
    if passes != [] {
      var before := passes[..|passes| - 1];
      assert forall i :: 0 <= i < |before| ==> before[i] == passes[i];
      EmptySpan(before, start, seconds);
    }
  }

  /** The earliest window of the passes in the span. */
  lemma {:induction false} FirstWindow(passes: seq<Pass>, start: int, seconds: nat) returns (f: int)
    ensures -1 <= f < |passes|
    ensures f >= 0 ==> start <= passes[f].at < start + seconds * SECOND
    ensures forall i :: 0 <= i < |passes| && start <= passes[i].at < start + seconds * SECOND ==>
      f >= 0 && passes[f].window <= passes[i].window
  {
    if passes == [] {
      f := -1;
    } else {
      var n := |passes| - 1;
      f := FirstWindow(passes[..n], start, seconds);
      assert forall i :: 0 <= i < n ==> passes[..n][i] == passes[i];
      if start <= passes[n].at < start + seconds * SECOND && (f < 0 || passes[n].window < passes[f].window) { f := n; }
    }
  }

  /** Passes two windows apart are a whole window length apart in time. */
  lemma {:induction false} TwoWindowsApart(s: State, window: nat, f: int, i: int)
    requires BornOk(s, window) && PassesOk(s) && 0 <= f < |s.passes| && 0 <= i < |s.passes|
    requires s.passes[f].window + 1 < s.passes[i].window
    ensures s.passes[f].at + window * SECOND <= s.passes[i].at
  {
  }

  /** Any half-open span of windowSeconds lets at most twice the limit through. */
  lemma {:induction false} SpanBounded(tr: seq<State>, steps: seq<Step>, limit: nat, window: nat, i: nat, start: int)
    requires IsRun(tr, steps, limit, window) && i < |tr|
    ensures InSpan(tr[i].passes, start, window) <= 2 * limit
  {
    Reachable(tr, steps, limit, window, i);
    var s := tr[i];
    var f := FirstWindow(s.passes, start, window);
    if f < 0 {
      EmptySpan(s.passes, start, window);
    } else {
      forall k | 0 <= k < |s.passes| && start <= s.passes[k].at < start + window * SECOND
        ensures s.passes[f].window <= s.passes[k].window <= s.passes[f].window + 1
      {
        if s.passes[f].window + 1 < s.passes[k].window { TwoWindowsApart(s, window, f, k); }
      }
      SpanInTwo(s.passes, start, window, s.passes[f].window);
    }
  }

  // ---- cooldowns ------------------------------------------------------------------------------------

  /** The key after the calls at these times. */
  function Cooled(times: seq<int>, seconds: int): Option<int>
  {
    if times == [] then None
    else AfterCooldown(Cooled(times[..|times| - 1], seconds), seconds, times[|times| - 1])
  }

  /** Call n may go on. */
  predicate Granted(times: seq<int>, seconds: int, n: nat)
    requires n < |times|
  {
    !Cooling(Cooled(times[..n], seconds), times[n])
  }

  /** Two calls that may go on are at least the cooldown apart. */
  lemma {:induction false} GrantsApart(times: seq<int>, seconds: int, i: nat, j: nat)
    requires seconds > 0 && i < j < |times|
    requires forall a, b :: 0 <= a < b < |times| ==> times[a] <= times[b]
    requires Granted(times, seconds, i) && Granted(times, seconds, j)
    ensures times[j] >= times[i] + seconds * SECOND
  {
    StillCooling(times, seconds, i, j);
  }

  /** A call may go on if and only if no earlier call that went on is less than the cooldown ago. */
  lemma {:induction false} GrantedIff(times: seq<int>, seconds: int, n: nat)
    requires seconds > 0 && n < |times|
    requires forall a, b :: 0 <= a < b < |times| ==> times[a] <= times[b]
    ensures Granted(times, seconds, n) <==> forall i: nat | i < n && Granted(times, seconds, i) :: times[n] >= times[i] + 1000 * seconds
  {
    if Granted(times, seconds, n) {
      forall i: nat | i < n && Granted(times, seconds, i) ensures times[n] >= times[i] + 1000 * seconds { GrantsApart(times, seconds, i, n); }
    } else {
      var i := LastGranted(times, seconds, n);
      assert times[n] < times[i] + 1000 * seconds;
    }
  }

  /** The call that set the key. */
  lemma {:induction false} LastGranted(times: seq<int>, seconds: int, n: nat) returns (i: nat)
    requires seconds > 0 && n <= |times| && Cooled(times[..n], seconds).Some?
    ensures i < n && Granted(times, seconds, i) && Cooled(times[..n], seconds) == Some(times[i] + 1000 * seconds)
  {
    assert times[..n][..n - 1] == times[..n - 1];
    if Granted(times, seconds, n - 1) { i := n - 1; } else { i := LastGranted(times, seconds, n - 1); }
  }

  /** After a granted call the key keeps a deadline no earlier than that call's. */
  lemma {:induction false} StillCooling(times: seq<int>, seconds: int, i: nat, n: nat)
    requires seconds > 0 && i < n <= |times| && Granted(times, seconds, i)
    requires forall a, b :: 0 <= a < b < |times| ==> times[a] <= times[b]
    ensures Cooled(times[..n], seconds).Some? && Cooled(times[..n], seconds).value >= times[i] + seconds * SECOND
    decreases n
  {
    assert times[..n][..n - 1] == times[..n - 1];
    if n > i + 1 { StillCooling(times, seconds, i, n - 1); }
  }
}
