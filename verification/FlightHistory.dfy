/**
 Whole runs of the cache-aside wrapper seen from outside: its store is the cache object after
 the reads and writes the run made, so a hit answers what the plain map remembers; scheduled
 writes are neither lost nor made twice; and time is the sum of the ticks.
 */
module FlightHistory {
  import opened Text
  import opened SingleFlight
  import C = Cache

  // ----- the store is the cache -----

  /** The cache operation a step makes, with the clock at that moment. */
  function Made<V>(s: State<V>, step: Step<V>, cfg: Config): seq<C.Event<V>> {
    match step
    case FastGet(p) => if PcOf(s, p).Called? then [C.Event(C.Get(PcOf(s, p).key), s.now)] else []
    case Recheck(p) => if PcOf(s, p).Holding? then [C.Event(C.Get(PcOf(s, p).key), s.now)] else []
    case WriteOk(p) =>
      var pc := PcOf(s, p);
      if pc.Writing? then [C.Event(C.Set(pc.key, pc.value, Some(cfg.ttl(pc.key))), s.now)] else []
    case Land(i) =>
      if i < |s.tasks| then [C.Event(C.Set(s.tasks[i].key, s.tasks[i].value, Some(cfg.ttl(s.tasks[i].key))), s.now)]
      else []
    case DeleteKey(key) => [C.Event(C.Delete(key), s.now)]
    case SetKey(key, value, ttl) => [C.Event(C.Set(key, value, Some(ttl)), s.now)]
    case ClearAll => [C.Event(C.Clear, s.now)]
    case _ => []
  }

  /** All cache operations of a run, in order. */
  function History<V>(s: State<V>, steps: seq<Step<V>>, cfg: Config): seq<C.Event<V>>
    requires Run(s, steps, cfg).Some?
    decreases |steps|
  {
    if steps == [] then []
    else Made(s, steps[0], cfg) + History(Next(s, steps[0], cfg).value, steps[1..], cfg)
  }

  lemma StepIsCached<V>(s: State<V>, step: Step<V>, cfg: Config, h: seq<C.Event<V>>, default: Time)
    requires s.store == C.Run(h, default) && Next(s, step, cfg).Some?
    ensures Next(s, step, cfg).value.store == C.Run(h + Made(s, step, cfg), default)
  {
    hide C.Run, Without;
    var made := Made(s, step, cfg);
    if made == [] {
      assert h + made == h;
    } else {
      CacheSnoc(h, made[0], default);
      assert made == [made[0]];
    }
  }

  lemma CacheSnoc<V>(h: seq<C.Event<V>>, e: C.Event<V>, default: Time)
    ensures C.Run(h + [e], default) == C.Apply(C.Run(h, default), e, default)
  {
    assert (h + [e])[..|h + [e]| - 1] == h;
  }

  lemma {:induction false} RunIsCached<V>(s: State<V>, steps: seq<Step<V>>, cfg: Config, h: seq<C.Event<V>>,
                                          default: Time)
    requires s.store == C.Run(h, default) && Run(s, steps, cfg).Some?
    ensures Run(s, steps, cfg).value.store == C.Run(h + History(s, steps, cfg), default)
    decreases |steps|
  {
    hide Next, Made, C.Run;
    if steps == [] {
      assert h + [] == h;
    } else {
      var t, made := Next(s, steps[0], cfg).value, Made(s, steps[0], cfg);
      StepIsCached(s, steps[0], cfg, h, default);
      RunIsCached(t, steps[1..], cfg, h + made, default);
      assert h + made + History(t, steps[1..], cfg) == h + History(s, steps, cfg);
    }
  }

  /** Over every run the wrapper's store is the cache after the run's own reads and writes, each at
      its moment and with its key's lifetime. */
  lemma StoreIsCache<V>(now: Time, steps: seq<Step<V>>, cfg: Config, default: Time)
    requires Run(Start<V>(now), steps, cfg).Some?
    ensures Run(Start<V>(now), steps, cfg).value.store == C.Run(History(Start<V>(now), steps, cfg), default)
  {
    var none: seq<C.Event<V>> := [];
    RunIsCached(Start<V>(now), steps, cfg, none, default);
    assert none + History(Start<V>(now), steps, cfg) == History(Start<V>(now), steps, cfg);
  }

  // ----- time -----

  /** The ticks of a run, summed. */
  function Ticked<V>(steps: seq<Step<V>>): Time {
    if steps == [] then 0.0 else (if steps[0].Tick? then steps[0].d else 0.0) + Ticked(steps[1..])
  }

  /** The clock moves by the ticks alone, and never back. */
  lemma {:induction false} ClockIsTicks<V>(s: State<V>, steps: seq<Step<V>>, cfg: Config)
    requires Run(s, steps, cfg).Some?
    ensures Run(s, steps, cfg).value.now == s.now + Ticked(steps)
    ensures Ticked(steps) >= 0.0
    decreases |steps|
  {
    if steps != [] {
      StepTicks(s, steps[0], cfg);
      ClockIsTicks(Next(s, steps[0], cfg).value, steps[1..], cfg);
    }
  }

  lemma StepTicks<V>(s: State<V>, step: Step<V>, cfg: Config)
    requires Next(s, step, cfg).Some?
    ensures Next(s, step, cfg).value.now == s.now + if step.Tick? then step.d else 0.0
    ensures step.Tick? ==> step.d >= 0.0
  {
  }

  /** The operations of a run happen in order, none before its start or after its end. */
  lemma {:induction false} HistoryIsOrdered<V>(s: State<V>, steps: seq<Step<V>>, cfg: Config)
    requires Run(s, steps, cfg).Some?
    ensures C.Ordered(History(s, steps, cfg))
    ensures forall e <- History(s, steps, cfg) :: s.now <= e.at <= Run(s, steps, cfg).value.now
    decreases |steps|
  {
    hide Next, Made;
    if steps != [] {
      var t, made := Next(s, steps[0], cfg).value, Made(s, steps[0], cfg);
      var later := History(t, steps[1..], cfg);
      StepTicks(s, steps[0], cfg);
      MadeNow(s, steps[0], cfg);
      HistoryIsOrdered(t, steps[1..], cfg);
      ClockIsTicks(t, steps[1..], cfg);
      var all: seq<C.Event<V>> := made + later;
      assert forall e <- all :: e in made || e in later;
      forall i, j | 0 <= i < j < |all|
        ensures all[i].at <= all[j].at
      {
        assert all[j] == later[j - |made|] && later[j - |made|] in later;
        assert i < |made| ==> all[i] == made[i];
        assert i >= |made| ==> all[i] == later[i - |made|];
      }
    }
  }

  lemma MadeNow<V>(s: State<V>, step: Step<V>, cfg: Config)
    ensures |Made(s, step, cfg)| <= 1 && forall e <- Made(s, step, cfg) :: e.at == s.now
  {
  }

  /** A read, on the fast path or under the lock, is a hit exactly when the plain map that never
      drops anything remembers a value at that moment, and answers that value. */
  lemma HitIsRemembered<V>(now: Time, steps: seq<Step<V>>, cfg: Config, p: Pid, default: Time)
    requires Run(Start<V>(now), steps, cfg).Some?
    requires var pc := PcOf(Run(Start<V>(now), steps, cfg).value, p); pc.Called? || pc.Holding?
    ensures var s := Run(Start<V>(now), steps, cfg).value;
            var key := PcOf(s, p).key;
            var t := Next(s, if PcOf(s, p).Called? then FastGet(p) else Recheck(p), cfg);
            && t.Some?
            && match C.Remembered(History(Start<V>(now), steps, cfg), key, s.now, default)
               case Some(value) => PcOf(t.value, p) == Returned(key, value, None)
               case None => PcOf(t.value, p).Missed? || PcOf(t.value, p).Fetching?
  {
    hide C.Run, C.Remembered, C.Lookup;
    var s, h := Run(Start<V>(now), steps, cfg).value, History(Start<V>(now), steps, cfg);
    StoreIsCache(now, steps, cfg, default);
    HistoryIsOrdered(Start<V>(now), steps, cfg);
    C.LazyEvictionIsInvisible(h, PcOf(s, p).key, s.now, default);
  }

  // ----- scheduled writes -----

  /** The writes a step schedules. */
  function Scheduled<V(==)>(s: State<V>, step: Step<V>, cfg: Config): multiset<Task<V>> {
    if step.FetchOk? && PcOf(s, step.p).Fetching? && !cfg.reliable(PcOf(s, step.p).key)
    then multiset{Task(PcOf(s, step.p).key, step.value)}
    else multiset{}
  }

  /** The scheduled writes a step is done with, landed or failed. */
  function Done<V(==)>(s: State<V>, step: Step<V>): multiset<Task<V>> {
    if (step.Land? || step.LandFail?) && step.i < |s.tasks| then multiset{s.tasks[step.i]} else multiset{}
  }

  function AllScheduled<V(==)>(s: State<V>, steps: seq<Step<V>>, cfg: Config): multiset<Task<V>>
    requires Run(s, steps, cfg).Some?
    decreases |steps|
  {
    if steps == [] then multiset{}
    else Scheduled(s, steps[0], cfg) + AllScheduled(Next(s, steps[0], cfg).value, steps[1..], cfg)
  }

  function AllDone<V(==)>(s: State<V>, steps: seq<Step<V>>, cfg: Config): multiset<Task<V>>
    requires Run(s, steps, cfg).Some?
    decreases |steps|
  {
    if steps == [] then multiset{}
    else Done(s, steps[0]) + AllDone(Next(s, steps[0], cfg).value, steps[1..], cfg)
  }

  lemma WithoutOne<T>(ts: seq<T>, i: nat)
    requires i < |ts|
    ensures multiset(Without(ts, i)) + multiset{ts[i]} == multiset(ts)
  {
    assert ts == ts[..i] + [ts[i]] + ts[i + 1..];
  }

  lemma StepConservesTasks<V>(s: State<V>, step: Step<V>, cfg: Config)
    requires Next(s, step, cfg).Some?
    ensures multiset(Next(s, step, cfg).value.tasks) + Done(s, step) == multiset(s.tasks) + Scheduled(s, step, cfg)
  {
    hide Without;
    if (step.Land? || step.LandFail?) && step.i < |s.tasks| {
      WithoutOne(s.tasks, step.i);
    }
  }

  lemma Balance<T>(a: multiset<T>, x: multiset<T>, y: multiset<T>, b: multiset<T>, v: multiset<T>, w: multiset<T>,
                   c: multiset<T>)
    requires b + y == a + x && c + w == b + v
    ensures c + (y + w) == a + (x + v)
  {
    assert c + (y + w) == (c + w) + y;
    assert a + (x + v) == (a + x) + v;
    assert (b + v) + y == (b + y) + v;
  }

  /** Scheduled writes are conserved: over every run each one is pending, or landed or failed once. */
  lemma {:induction false} TasksAreConserved<V>(s: State<V>, steps: seq<Step<V>>, cfg: Config)
    requires Run(s, steps, cfg).Some?
    ensures multiset(Run(s, steps, cfg).value.tasks) + AllDone(s, steps, cfg)
            == multiset(s.tasks) + AllScheduled(s, steps, cfg)
    decreases |steps|
  {
    hide Next, Scheduled, Done;
    if steps != [] {
      var t, u := Next(s, steps[0], cfg).value, Run(s, steps, cfg).value;
      StepConservesTasks(s, steps[0], cfg);
      TasksAreConserved(t, steps[1..], cfg);
      Balance(multiset(s.tasks), Scheduled(s, steps[0], cfg), Done(s, steps[0]), multiset(t.tasks),
              AllScheduled(t, steps[1..], cfg), AllDone(t, steps[1..], cfg), multiset(u.tasks));
    }
  }

  // ----- cancelling -----

  /** A call can be cancelled exactly while it waits for its lock or for its write. It then raises,
      keeps the lock of no one, and leaves store, other calls and scheduled writes as they were. */
  lemma CancelIff<V>(s: State<V>, p: Pid, cfg: Config)
    ensures Next(s, Cancel(p), cfg).Some? <==> PcOf(s, p).Waiting? || PcOf(s, p).Writing?
    ensures Next(s, Cancel(p), cfg).Some? ==>
              var t := Next(s, Cancel(p), cfg).value;
              && PcOf(t, p) == Raised(PcOf(s, p).key) && t.procs - {p} == s.procs - {p}
              && t.held == (if PcOf(s, p).Writing? then s.held - {PcOf(s, p).lock} else s.held)
              && t.store == s.store && t.locks == s.locks && t.tasks == s.tasks && t.now == s.now
  {
  }
}
