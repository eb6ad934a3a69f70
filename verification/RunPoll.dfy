/**
 Waiting for a submitted run: status checks with growing pauses, inside a time budget. The
 wait always ends, never asks for more sleep than the budget, and reports a run as still
 running only once the budget is spent.
 */
module RunPoll {
  import opened Text

  datatype Status = Running | Completed | Failed | NotFound

  const WAIT_CEILING: real := 55.0
  const BACKOFF: real := 1.5

  function Min(a: real, b: real): real {
    if a <= b then a else b
  }

  function Max(a: real, b: real): real {
    if a >= b then a else b
  }

  /** The default wait, from the configured one. */
  function DefaultWait(configured: real): real {
    Min(configured, WAIT_CEILING)
  }

  /** The budget of one call. */
  function Budget(wait: Option<real>, configured: real): real {
    if wait.Some? then Max(0.0, wait.value) else DefaultWait(configured)
  }

  /** The pause after check `k`, before the deadline cuts it. */
  function Interval(k: nat, initial: real, cap: real): real {
    if k == 0 then initial else Min(Interval(k - 1, initial, cap) * BACKOFF, cap)
  }

  /** The first pause, grown by half `k` times. */
  function Grown(initial: real, k: nat): real {
    if k == 0 then initial else Grown(initial, k - 1) * 1.5
  }

  lemma CapGrows(y: real, cap: real)
    requires y > 0.0 && cap > 0.0
    ensures Min(Min(y, cap) * 1.5, cap) == Min(y * 1.5, cap)
  {
  }

  /** The first pause is the configured one; pause `k` has grown by half each time, up to the cap. */
  lemma {:induction false} PausesGrow(k: nat, initial: real, cap: real)
    requires initial > 0.0 && cap > 0.0
    ensures Grown(initial, k) > 0.0
    ensures Interval(k, initial, cap) == if k == 0 then initial else Min(Grown(initial, k), cap)
  {
    if k > 0 {
      PausesGrow(k - 1, initial, cap);
      CapGrows(Grown(initial, k - 1), cap);
    }
  }

  /** The wait that was asked for, at least nothing; without one the configured wait, at most 55. */
  lemma BudgetIs(wait: Option<real>, configured: real)
    ensures Budget(wait, configured) ==
            match wait
            case Some(w) => if w > 0.0 then w else 0.0
            case None => if configured < 55.0 then configured else 55.0
  {
  }

  function Total(pauses: seq<real>): real {
    if pauses == [] then 0.0 else Total(pauses[..|pauses| - 1]) + pauses[|pauses| - 1]
  }

  lemma {:induction false} IntervalAtLeast(k: nat, initial: real, cap: real)
    requires initial > 0.0 && cap > 0.0
    ensures Interval(k, initial, cap) >= Min(initial, cap)
  {
    if k > 0 {
      IntervalAtLeast(k - 1, initial, cap);
    }
  }

  lemma TotalSnoc(pauses: seq<real>, d: real)
    ensures Total(pauses + [d]) == Total(pauses) + d
  {
    var all := pauses + [d];
    assert all[..|all| - 1] == pauses;
  }

  /** How many full pauses of at least `pause` fit in the budget. */
  function Fits(budget: real, pause: real): (n: int)
    requires pause > 0.0
  {
    (Max(0.0, budget) / pause).Floor
  }

  lemma FitsBound(n: int, budget: real, pause: real)
    requires pause > 0.0 && n as real * pause <= Max(0.0, budget)
    ensures n <= Fits(budget, pause)
  {
    var q := Max(0.0, budget) / pause;
    assert q * pause == Max(0.0, budget);
    if n as real > q {
      assert n as real * pause > q * pause;
    }
  }

  lemma Distribute(n: nat, pause: real)
    ensures (n + 1) as real * pause == n as real * pause + pause
  {
  }

  // ----- time and the service -----

  /** A monotonic clock: it may advance at any reading, and by at least what was slept. It keeps
      what the service answered and how long was slept. */
  class Clock {
    var now: real
    ghost var answers: seq<Status>
    ghost var sleeps: seq<real>

    method Monotonic() returns (t: real)
      modifies this`now
      ensures t == now && now >= old(now)
    {
      var passed: real :| passed >= 0.0;
      now := now + passed;
      t := now;
    }

    method Sleep(seconds: real)
      modifies this`now, this`sleeps
      ensures now >= old(now) + seconds && sleeps == old(sleeps) + [seconds]
    {
      sleeps := sleeps + [seconds];
      var extra: real :| extra >= 0.0;
      now := now + seconds + extra;
    }

    /** One status check: any answer, taking any time. */
    method CheckOnce() returns (status: Status)
      modifies this`now, this`answers
      ensures now >= old(now) && answers == old(answers) + [status]
    {
      var passed: real :| passed >= 0.0;
      now := now + passed;
      status := *;
      answers := answers + [status];
    }
  }

  /** Every pause is positive and within its interval; only the last one may be cut short. */
  predicate Paced(pauses: seq<real>, initial: real, cap: real) {
    && (forall i :: 0 <= i < |pauses| ==> 0.0 < pauses[i] <= Interval(i, initial, cap))
    && (forall i :: 0 <= i < |pauses| - 1 ==> pauses[i] == Interval(i, initial, cap))
  }

  /** All pauses were full so far, or the time is up. */
  predicate FullSoFar(pauses: seq<real>, now: real, deadline: real, pause: real) {
    || Total(pauses) >= |pauses| as real * pause
    || (now >= deadline && Total(pauses) >= (|pauses| - 1) as real * pause)
  }

  lemma PauseKeepsCount(pauses: seq<real>, d: real, pause: real)
    requires Total(pauses) >= |pauses| as real * pause && d >= 0.0
    ensures d >= pause ==> Total(pauses + [d]) >= |pauses + [d]| as real * pause
    ensures Total(pauses + [d]) >= (|pauses + [d]| - 1) as real * pause
  {
    TotalSnoc(pauses, d);
    Distribute(|pauses|, pause);
  }

  lemma PacedSnoc(pauses: seq<real>, d: real, initial: real, cap: real)
    requires Paced(pauses, initial, cap) && 0.0 < d <= Interval(|pauses|, initial, cap)
    requires pauses != [] ==> pauses[|pauses| - 1] == Interval(|pauses| - 1, initial, cap)
    ensures Paced(pauses + [d], initial, cap)
  {
  }

  /** What is known at `now` when the next check is made. */
  predicate Waiting(pauses: seq<real>, now: real, start: real, budget: real, initial: real, cap: real)
    requires initial > 0.0 && cap > 0.0
  {
    && Paced(pauses, initial, cap)
    && (pauses != [] && now < start + budget ==> pauses[|pauses| - 1] == Interval(|pauses| - 1, initial, cap))
    && Total(pauses) <= Max(0.0, budget) && now >= start + Total(pauses)
    && FullSoFar(pauses, now, start + budget, Min(initial, cap))
    && |pauses| <= Fits(budget, Min(initial, cap)) + 1
  }

  lemma WaitingAtFirst(start: real, budget: real, initial: real, cap: real)
    requires initial > 0.0 && cap > 0.0
    ensures Waiting([], start, start, budget, initial, cap)
  {
    FitsBound(0, budget, Min(initial, cap));
  }

  lemma WaitingLonger(pauses: seq<real>, now: real, later: real, start: real, budget: real, initial: real, cap: real)
    requires initial > 0.0 && cap > 0.0
    requires Waiting(pauses, now, start, budget, initial, cap) && now <= later
    ensures Waiting(pauses, later, start, budget, initial, cap)
  {
    hide Total, Interval, Fits;
  }

  /** One more pause, as long as the deadline is not reached. */
  lemma WaitingPause(pauses: seq<real>, now: real, d: real, later: real, start: real, budget: real,
                     initial: real, cap: real)
    requires initial > 0.0 && cap > 0.0
    requires Waiting(pauses, now, start, budget, initial, cap) && now < start + budget
    requires d == Min(Interval(|pauses|, initial, cap), start + budget - now) && later >= now + d
    ensures |pauses| <= Fits(budget, Min(initial, cap))
    ensures Waiting(pauses + [d], later, start, budget, initial, cap)
  {
    hide Total, Interval, Fits;
    var pause := Min(initial, cap);
    IntervalAtLeast(|pauses|, initial, cap);
    FitsBound(|pauses|, budget, pause);
    TotalSnoc(pauses, d);
    PauseKeepsCount(pauses, d, pause);
    PacedSnoc(pauses, d, initial, cap);
  }

  /** The answers before the last one. */
  function StillRunning(n: nat): seq<Status> {
    seq(n, i => Running)
  }

  /** `get_run_status`: the status is the last check's answer, and every earlier answer was
      "running". */
  method GetRunStatus(clock: Clock, wait: Option<real>, configured: real, initial: real, cap: real)
    returns (status: Status, checks: nat, pauses: seq<real>)
    requires initial > 0.0 && cap > 0.0
    modifies clock
    ensures checks == |pauses| + 1 && Paced(pauses, initial, cap)
    ensures Total(pauses) <= Max(0.0, Budget(wait, configured))
    ensures clock.sleeps == old(clock.sleeps) + pauses
    ensures clock.answers == old(clock.answers) + StillRunning(|pauses|) + [status]
    ensures status.Running? ==> clock.now >= old(clock.now) + Budget(wait, configured)
    ensures 1 <= checks <= Fits(Budget(wait, configured), Min(initial, cap)) + 2
  {
    hide Fits, Total, FullSoFar, Paced;
    var budget := Budget(wait, configured);
    var start := clock.Monotonic();
    var deadline := start + budget;
    var interval := initial;
    pauses := [];
    checks := 0;
    WaitingAtFirst(start, budget, initial, cap);
    while true
      invariant clock.sleeps == old(clock.sleeps) + pauses
      invariant clock.answers == old(clock.answers) + StillRunning(|pauses|)
      invariant checks == |pauses| && interval == Interval(checks, initial, cap)
      invariant clock.now >= start && Waiting(pauses, clock.now, start, budget, initial, cap)
      decreases Fits(budget, Min(initial, cap)) + 1 - checks
    {
      ghost var before := clock.now;
      checks := checks + 1;
      status := clock.CheckOnce();
      if status != Running {
        return;
      }
      var t := clock.Monotonic();
      var remaining := deadline - t;
      if remaining <= 0.0 {
        return;
      }
      WaitingLonger(pauses, before, t, start, budget, initial, cap);
      var d := Min(interval, remaining);
      IntervalAtLeast(|pauses|, initial, cap);
      clock.Sleep(d);
      WaitingPause(pauses, t, d, clock.now, start, budget, initial, cap);
      pauses := pauses + [d];
      assert StillRunning(|pauses|) == StillRunning(|pauses| - 1) + [Running];
      interval := Min(interval * BACKOFF, cap);
    }
  }
}
