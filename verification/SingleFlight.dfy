/**
 The cache-aside wrapper as a protocol between coroutines: a fast read, a lock per key, a
 second read under the lock, the wrapped call, and a write that is awaited (reliable mode)
 or left to a scheduled task. Every interleaving of the steps is a run.
 */
module SingleFlight {
  import opened Text
  import C = Cache

  type Time = C.Time
  type Pid = nat
  type LockId = nat

  /** Where a call of the wrapper stands. */
  datatype Pc<V> =
    | Idle
    | Called(key: string)
    | Missed(key: string)
    | Waiting(key: string, lock: LockId)
    | Holding(key: string, lock: LockId)
    | Fetching(key: string, lock: LockId)
    | Writing(key: string, lock: LockId, value: V, attempt: nat)
    | Returned(key: string, value: V, landed: Option<Time>)   // the expiry of its own awaited write
    | Raised(key: string)

  datatype Task<V> = Task(key: string, value: V)

  datatype State<V> = State(
    now: Time,
    store: C.Store<V>,
    locks: map<string, LockId>,
    nextLock: LockId,
    held: map<LockId, Pid>,
    procs: map<Pid, Pc<V>>,
    tasks: seq<Task<V>>)

  /** The mode and lifetime of each key's wrapper. */
  datatype Config = Config(reliable: string -> bool, ttl: string -> Time)

  const RETRIES: nat := 3

  datatype Step<V> =
    | Call(p: Pid, key: string)
    | FastGet(p: Pid)
    | TakeLock(p: Pid)
    | Acquire(p: Pid)
    | Recheck(p: Pid)
    | FetchOk(p: Pid, value: V)
    | FetchRaise(p: Pid)
    | WriteOk(p: Pid)
    | WriteFail(p: Pid)
    | Cancel(p: Pid)
    | Land(i: nat)
    | LandFail(i: nat)
    | Tick(d: Time)
    | DeleteKey(key: string)
    | SetKey(key: string, value: V, ttl: Time)
    | ClearAll

  function PcOf<V>(s: State<V>, p: Pid): Pc<V> {
    if p in s.procs then s.procs[p] else Idle
  }

  /** The call is inside the `async with`. */
  predicate Owns<V>(pc: Pc<V>) {
    pc.Holding? || pc.Fetching? || pc.Writing?
  }

  predicate HasLock<V>(pc: Pc<V>) {
    pc.Waiting? || Owns(pc)
  }

  function Move<V>(s: State<V>, p: Pid, pc: Pc<V>): State<V> {
    s.(procs := s.procs[p := pc])
  }

  /** Leaves the `async with`. */
  function Release<V>(s: State<V>, p: Pid, pc: Pc<V>): State<V>
    requires HasLock(PcOf(s, p))
  {
    Move(s, p, pc).(held := s.held - {PcOf(s, p).lock})
  }

  function Written<V>(s: State<V>, key: string, value: V, ttl: Time): State<V> {
    s.(store := s.store[key := C.Entry(value, s.now + ttl)])
  }

  /** `_get_lock` */
  function WithLock<V>(s: State<V>, key: string): State<V> {
    if key in s.locks then s
    else s.(locks := s.locks[key := s.nextLock], nextLock := s.nextLock + 1)
  }

  function Read<V>(s: State<V>, key: string): State<V> {
    s.(store := C.Evict(s.store, key, s.now))
  }

  /** One step; None when it cannot be taken. */
  function Next<V>(s: State<V>, step: Step<V>, cfg: Config): Option<State<V>> {
    match step
    case Call(p, key) => if PcOf(s, p).Idle? then Some(Move(s, p, Called(key))) else None
    case FastGet(p) =>
      if !PcOf(s, p).Called? then None
      else
        var key := PcOf(s, p).key;
        Some(Move(Read(s, key), p,
                  match C.Lookup(s.store, key, s.now)
                  case Some(hit) => Returned(key, hit, None)
                  case None => Missed(key)))
    case TakeLock(p) =>
      if !PcOf(s, p).Missed? then None
      else
        var key, t := PcOf(s, p).key, WithLock(s, PcOf(s, p).key);
        Some(Move(t, p, Waiting(key, t.locks[key])))
    case Acquire(p) =>
      if !PcOf(s, p).Waiting? || PcOf(s, p).lock in s.held then None
      else
        var pc := PcOf(s, p);
        Some(Move(s, p, Holding(pc.key, pc.lock)).(held := s.held[pc.lock := p]))
    case Recheck(p) =>
      if !PcOf(s, p).Holding? then None
      else
        var pc := PcOf(s, p);
        var t := Read(s, pc.key);
        Some(match C.Lookup(s.store, pc.key, s.now)
             case Some(hit) => Release(t, p, Returned(pc.key, hit, None))
             case None => Move(t, p, Fetching(pc.key, pc.lock)))
    case FetchOk(p, value) =>
      if !PcOf(s, p).Fetching? then None
      else
        var pc := PcOf(s, p);
        if cfg.reliable(pc.key) then Some(Move(s, p, Writing(pc.key, pc.lock, value, 1)))
        else Some(Release(s, p, Returned(pc.key, value, None)).(tasks := s.tasks + [Task(pc.key, value)]))
    case FetchRaise(p) =>
      if !PcOf(s, p).Fetching? then None else Some(Release(s, p, Raised(PcOf(s, p).key)))
    case WriteOk(p) =>
      if !PcOf(s, p).Writing? then None
      else
        var pc := PcOf(s, p);
        Some(Release(Written(s, pc.key, pc.value, cfg.ttl(pc.key)), p,
                     Returned(pc.key, pc.value, Some(s.now + cfg.ttl(pc.key)))))
    case WriteFail(p) =>
      if !PcOf(s, p).Writing? then None
      else
        var pc := PcOf(s, p);
        if pc.attempt >= RETRIES then Some(Release(s, p, Raised(pc.key)))
        else Some(Move(s, p, Writing(pc.key, pc.lock, pc.value, pc.attempt + 1)))
    case Cancel(p) =>
      if PcOf(s, p).Waiting? then Some(Move(s, p, Raised(PcOf(s, p).key)))
      else if PcOf(s, p).Writing? then Some(Release(s, p, Raised(PcOf(s, p).key)))
      else None
    case Land(i) =>
      if i >= |s.tasks| then None
      else Some(Written(s, s.tasks[i].key, s.tasks[i].value, cfg.ttl(s.tasks[i].key)).(tasks := Without(s.tasks, i)))
    case LandFail(i) => if i >= |s.tasks| then None else Some(s.(tasks := Without(s.tasks, i)))
    case Tick(d) => if d < 0.0 then None else Some(s.(now := s.now + d))
    case DeleteKey(key) => Some(s.(store := s.store - {key}))
    case SetKey(key, value, ttl) => Some(Written(s, key, value, ttl))
    case ClearAll => Some(s.(store := map[], locks := map[]))
  }

  function Without<T>(ts: seq<T>, i: nat): seq<T>
    requires i < |ts|
  {
    ts[..i] + ts[i + 1..]
  }

  /** The state after a run of steps; None when one of them cannot be taken. */
  function Run<V>(s: State<V>, steps: seq<Step<V>>, cfg: Config): Option<State<V>>
    decreases |steps|
  {
    if steps == [] then Some(s)
    else
      var t :- Next(s, steps[0], cfg);
      Run(t, steps[1..], cfg)
  }

  function Start<V>(now: Time): State<V> {
    State(now, map[], map[], 0, map[], map[], [])
  }

  // ----- mutual exclusion -----

  /** The call's lock object is its key's. */
  predicate Attached<V>(s: State<V>, pc: Pc<V>)
    requires HasLock(pc)
  {
    pc.key in s.locks && s.locks[pc.key] == pc.lock
  }

  /** Each key has one lock object, and a lock's holder is the one call inside its `async with`.
      `orphans` are lock objects no key has any more, still held while a fetched value is written. */
  ghost predicate Inv<V>(s: State<V>, orphans: set<LockId>) {
    && (forall k <- s.locks :: s.locks[k] < s.nextLock)
    && (forall j, k :: j in s.locks && k in s.locks && s.locks[j] == s.locks[k] ==> j == k)
    && (forall p <- s.procs :: HasLock(s.procs[p]) ==>
          Attached(s, s.procs[p]) || (s.procs[p].Writing? && s.procs[p].lock in orphans))
    && (forall l <- orphans :: l < s.nextLock && forall k <- s.locks :: s.locks[k] != l)
    && (forall p <- s.procs :: Owns(s.procs[p]) ==>
          s.procs[p].lock in s.held && s.held[s.procs[p].lock] == p)
    && (forall l <- s.held :: s.held[l] in s.procs && Owns(s.procs[s.held[l]]) && s.procs[s.held[l]].lock == l)
  }

  /** A call outside every `async with` moves on outside. */
  lemma MoveKeepsInv<V>(s: State<V>, p: Pid, pc: Pc<V>, orphans: set<LockId>)
    requires Inv(s, orphans) && !Owns(PcOf(s, p)) && !Owns(pc)
    requires pc.Waiting? ==> Attached(s, pc)
    ensures Inv(Move(s, p, pc), orphans)
  {
  }

  /** A call inside its `async with` moves on inside. */
  lemma StayKeepsInv<V>(s: State<V>, p: Pid, pc: Pc<V>, orphans: set<LockId>)
    requires Inv(s, orphans) && Owns(PcOf(s, p)) && Owns(pc) && pc.key == PcOf(s, p).key && pc.lock == PcOf(s, p).lock
    requires PcOf(s, p).Writing? ==> pc.Writing?
    ensures Inv(Move(s, p, pc), orphans)
  {
  }

  lemma ReleaseKeepsInv<V>(s: State<V>, p: Pid, pc: Pc<V>, orphans: set<LockId>)
    requires Inv(s, orphans) && Owns(PcOf(s, p)) && !HasLock(pc)
    ensures Inv(Release(s, p, pc), orphans)
  {
  }

  lemma AcquireKeepsInv<V>(s: State<V>, p: Pid, pc: Pc<V>, orphans: set<LockId>)
    requires Inv(s, orphans) && PcOf(s, p).Waiting? && PcOf(s, p).lock !in s.held
    requires pc == Holding(PcOf(s, p).key, PcOf(s, p).lock)
    ensures Inv(Move(s, p, pc).(held := s.held[pc.lock := p]), orphans)
  {
    var t := Move(s, p, pc).(held := s.held[pc.lock := p]);
    forall q | q in t.procs && Owns(t.procs[q])
      ensures t.procs[q].lock in t.held && t.held[t.procs[q].lock] == q
    {
      if q != p {
        assert t.procs[q] == s.procs[q] && s.procs[q].lock in s.held;
      }
    }
    forall l | l in t.held
      ensures t.held[l] in t.procs && Owns(t.procs[t.held[l]]) && t.procs[t.held[l]].lock == l
    {
      if l != pc.lock {
        assert s.held[l] != p;
      }
    }
  }

  lemma WithLockKeepsInv<V>(s: State<V>, key: string, orphans: set<LockId>)
    requires Inv(s, orphans)
    ensures Inv(WithLock(s, key), orphans) && key in WithLock(s, key).locks
  {
    if key !in s.locks {
      var t := WithLock(s, key);
      assert t.procs == s.procs && t.held == s.held;
      forall p | p in s.procs && HasLock(s.procs[p])
        ensures Attached(t, t.procs[p]) || (t.procs[p].Writing? && t.procs[p].lock in orphans)
      {
      }
      forall l | l in orphans
        ensures l < t.nextLock && forall k <- t.locks :: t.locks[k] != l
      {
      }
    }
  }

  lemma SameLocksKeepInv<V>(s: State<V>, t: State<V>, orphans: set<LockId>)
    requires Inv(s, orphans) && t.locks == s.locks && t.nextLock == s.nextLock && t.held == s.held && t.procs == s.procs
    ensures Inv(t, orphans)
  {
  }

  lemma CallStepKeepsInv<V>(s: State<V>, step: Step<V>, cfg: Config, orphans: set<LockId>)
    requires Inv(s, orphans) && Next(s, step, cfg).Some?
    requires step.Call? || step.FastGet? || step.TakeLock? || step.Acquire? || step.Recheck?
    ensures Inv(Next(s, step, cfg).value, orphans)
  {
    hide Inv, C.Evict, C.Lookup;
    var pc := PcOf(s, step.p);
    if step.Call? {
      MoveKeepsInv(s, step.p, Called(step.key), orphans);
    } else if step.FastGet? {
      SameLocksKeepInv(s, Read(s, pc.key), orphans);
      MoveKeepsInv(Read(s, pc.key), step.p, Next(s, step, cfg).value.procs[step.p], orphans);
    } else if step.TakeLock? {
      WithLockKeepsInv(s, pc.key, orphans);
      MoveKeepsInv(WithLock(s, pc.key), step.p, Waiting(pc.key, WithLock(s, pc.key).locks[pc.key]), orphans);
    } else if step.Acquire? {
      AcquireKeepsInv(s, step.p, Holding(pc.key, pc.lock), orphans);
    } else {
      SameLocksKeepInv(s, Read(s, pc.key), orphans);
      if C.Lookup(s.store, pc.key, s.now).Some? {
        var hit := C.Lookup(s.store, pc.key, s.now).value;
        ReleaseKeepsInv(Read(s, pc.key), step.p, Returned(pc.key, hit, None), orphans);
      } else {
        StayKeepsInv(Read(s, pc.key), step.p, Fetching(pc.key, pc.lock), orphans);
      }
    }
  }

  lemma FetchStepKeepsInv<V>(s: State<V>, step: Step<V>, cfg: Config, orphans: set<LockId>)
    requires Inv(s, orphans) && Next(s, step, cfg).Some?
    requires step.FetchOk? || step.FetchRaise? || step.WriteOk? || step.WriteFail? || step.Cancel?
    ensures Inv(Next(s, step, cfg).value, orphans)
  {
    hide Inv;
    var pc, t := PcOf(s, step.p), Next(s, step, cfg).value;
    var pc' := t.procs[step.p];
    if pc.Waiting? {
      MoveKeepsInv(s, step.p, pc', orphans);
    } else if pc'.Writing? {
      StayKeepsInv(s, step.p, pc', orphans);
    } else {
      var s' := s.(store := t.store, tasks := t.tasks);
      SameLocksKeepInv(s, s', orphans);
      ReleaseKeepsInv(s', step.p, pc', orphans);
      assert t == Release(s', step.p, pc');
    }
  }

  /** Every step but `clear` keeps the locks consistent. */
  lemma StepKeepsInv<V>(s: State<V>, step: Step<V>, cfg: Config, orphans: set<LockId>)
    requires Inv(s, orphans) && Next(s, step, cfg).Some? && !step.ClearAll?
    ensures Inv(Next(s, step, cfg).value, orphans)
  {
    hide Inv;
    if step.Call? || step.FastGet? || step.TakeLock? || step.Acquire? || step.Recheck? {
      CallStepKeepsInv(s, step, cfg, orphans);
    } else if step.FetchOk? || step.FetchRaise? || step.WriteOk? || step.WriteFail? || step.Cancel? {
      FetchStepKeepsInv(s, step, cfg, orphans);
    } else {
      SameLocksKeepInv(s, Next(s, step, cfg).value, orphans);
    }
  }

  ghost predicate NoClear<V>(steps: seq<Step<V>>) {
    forall step <- steps :: !step.ClearAll?
  }

  lemma {:induction false} RunKeepsInv<V>(s: State<V>, steps: seq<Step<V>>, cfg: Config, orphans: set<LockId>)
    requires Inv(s, orphans) && Run(s, steps, cfg).Some? && NoClear(steps)
    ensures Inv(Run(s, steps, cfg).value, orphans)
    decreases |steps|
  {
    if steps != [] {
      StepKeepsInv(s, steps[0], cfg, orphans);
      RunKeepsInv(Next(s, steps[0], cfg).value, steps[1..], cfg, orphans);
    }
  }

  /** At most one call per key is inside the wrapped function. */
  ghost predicate OneFetchEach<V>(s: State<V>) {
    forall p, q :: PcOf(s, p).Fetching? && PcOf(s, q).Fetching? && PcOf(s, p).key == PcOf(s, q).key ==> p == q
  }

  lemma InvMeansOneFetch<V>(s: State<V>, orphans: set<LockId>)
    requires Inv(s, orphans)
    ensures OneFetchEach(s)
  {
  }

  /** In every interleaving without `clear`, at most one call per key is inside the
      wrapped function. */
  lemma OneFetchPerKey<V>(now: Time, steps: seq<Step<V>>, cfg: Config, p: Pid, q: Pid)
    requires NoClear(steps) && Run(Start<V>(now), steps, cfg).Some?
    requires var s := Run(Start<V>(now), steps, cfg).value;
             PcOf(s, p).Fetching? && PcOf(s, q).Fetching? && PcOf(s, p).key == PcOf(s, q).key
    ensures p == q
  {
    RunKeepsInv(Start<V>(now), steps, cfg, {});
  }

  // ----- a landed write holds later fetches off -----

  /** The step neither removes the key's entry nor replaces it from outside. */
  predicate Quiet<V>(step: Step<V>, key: string) {
    !step.ClearAll? && !(step.DeleteKey? && step.key == key) && !(step.SetKey? && step.key == key)
  }

  ghost predicate AllQuiet<V>(steps: seq<Step<V>>, key: string) {
    forall step <- steps :: Quiet(step, key)
  }

  /** The step makes a call enter the wrapped function of `key`. */
  predicate StartsFetch<V>(s: State<V>, step: Step<V>, key: string) {
    step.Recheck? && PcOf(s, step.p).Holding? && PcOf(s, step.p).key == key
    && C.Lookup(s.store, key, s.now).None?
  }

  /** An entry that lives at least until `until`. */
  predicate Covered<V>(s: State<V>, key: string, until: Time) {
    key in s.store && s.store[key].expiresAt >= until
  }

  /** Covered, or the time is past; and a write from now on would cover it too. */
  predicate Guarded<V>(s: State<V>, key: string, until: Time, cfg: Config) {
    (Covered(s, key, until) || s.now > until) && s.now + cfg.ttl(key) >= until
  }

  lemma StepKeepsGuard<V>(s: State<V>, step: Step<V>, cfg: Config, key: string, until: Time)
    requires Guarded(s, key, until, cfg) && Next(s, step, cfg).Some? && Quiet(step, key)
    ensures Guarded(Next(s, step, cfg).value, key, until, cfg)
  {
  }

  lemma {:induction false} RunKeepsGuard<V>(s: State<V>, steps: seq<Step<V>>, cfg: Config, key: string, until: Time)
    requires Guarded(s, key, until, cfg) && Run(s, steps, cfg).Some? && AllQuiet(steps, key)
    ensures Guarded(Run(s, steps, cfg).value, key, until, cfg)
    decreases |steps|
  {
    if steps != [] {
      StepKeepsGuard(s, steps[0], cfg, key, until);
      RunKeepsGuard(Next(s, steps[0], cfg).value, steps[1..], cfg, key, until);
    }
  }

  /** The step lands a fetched value of `key` in the store. */
  predicate Lands<V>(s: State<V>, step: Step<V>, key: string) {
    || (step.WriteOk? && PcOf(s, step.p).Writing? && PcOf(s, step.p).key == key)
    || (step.Land? && step.i < |s.tasks| && s.tasks[step.i].key == key)
  }

  /** Once a successful fetch's write has landed, awaited or scheduled, no call starts to
      fetch that key until the written entry expires, whatever else runs, unless the key is
      deleted, set from outside, or the cache is cleared. */
  lemma LandedWriteHoldsOff<V>(s: State<V>, landing: Step<V>, steps: seq<Step<V>>, next: Step<V>,
                               cfg: Config, key: string)
    requires Lands(s, landing, key) && Next(s, landing, cfg).Some?
    requires var t := Next(s, landing, cfg).value;
             && AllQuiet(steps, key) && Run(t, steps, cfg).Some?
             && StartsFetch(Run(t, steps, cfg).value, next, key)
    ensures Run(Next(s, landing, cfg).value, steps, cfg).value.now > s.now + cfg.ttl(key)
  {
    RunKeepsGuard(Next(s, landing, cfg).value, steps, cfg, key, s.now + cfg.ttl(key));
  }

  // ----- reliable mode: one successful fetch per lifetime -----

  /** Where the call `p` can be after it entered the wrapped function of a reliable key. */
  predicate InFlightOrSettled<V>(s: State<V>, p: Pid, key: string, cfg: Config) {
    match PcOf(s, p)
    case Fetching(k, _) => k == key
    case Writing(k, _, _, _) => k == key
    case Returned(_, _, landed) => landed.Some? && Guarded(s, key, landed.value, cfg)
    case Raised(_) => true
    case _ => false
  }

  lemma StepKeepsFlight<V>(s: State<V>, step: Step<V>, cfg: Config, p: Pid, key: string)
    requires InFlightOrSettled(s, p, key, cfg) && cfg.reliable(key)
    requires Next(s, step, cfg).Some? && Quiet(step, key)
    ensures InFlightOrSettled(Next(s, step, cfg).value, p, key, cfg)
  {
    hide Next, Guarded;
    if PcOf(Next(s, step, cfg).value, p) == PcOf(s, p) {
      if PcOf(s, p).Returned? {
        StepKeepsGuard(s, step, cfg, key, PcOf(s, p).landed.value);
      }
    } else {
      FlightMoves(s, step, cfg, p, key);
    }
  }

  /** The call itself takes the step. */
  lemma FlightMoves<V>(s: State<V>, step: Step<V>, cfg: Config, p: Pid, key: string)
    requires InFlightOrSettled(s, p, key, cfg) && cfg.reliable(key) && Next(s, step, cfg).Some?
    requires PcOf(Next(s, step, cfg).value, p) != PcOf(s, p)
    ensures InFlightOrSettled(Next(s, step, cfg).value, p, key, cfg)
  {
    hide Guarded, C.Evict, C.Lookup, Without, Written, WithLock, Read;
    OnlyItsStepMoves(s, step, cfg, p);
    if step.WriteOk? {
      WriteGuards(s, step.p, cfg);
    }
  }

  /** A call moves by its own steps only. */
  lemma OnlyItsStepMoves<V>(s: State<V>, step: Step<V>, cfg: Config, p: Pid)
    requires Next(s, step, cfg).Some? && PcOf(Next(s, step, cfg).value, p) != PcOf(s, p)
    ensures !IsEnvironment(step) && step.p == p
  {
    hide Next;
    if IsEnvironment(step) {
      EnvironmentMovesNobody(s, step, cfg);
    } else if step.p != p {
      CallMovesItself(s, step, cfg, p);
    }
  }

  predicate IsEnvironment<V>(step: Step<V>) {
    step.Land? || step.LandFail? || step.Tick? || step.DeleteKey? || step.SetKey? || step.ClearAll?
  }

  lemma EnvironmentMovesNobody<V>(s: State<V>, step: Step<V>, cfg: Config)
    requires IsEnvironment(step) && Next(s, step, cfg).Some?
    ensures Next(s, step, cfg).value.procs == s.procs
  {
    hide C.Evict, C.Lookup, Without;
  }

  lemma CallMovesItself<V>(s: State<V>, step: Step<V>, cfg: Config, p: Pid)
    requires !IsEnvironment(step) && step.p != p && Next(s, step, cfg).Some?
    ensures PcOf(Next(s, step, cfg).value, p) == PcOf(s, p)
  {
    hide C.Evict, C.Lookup, Without;
  }

  lemma WriteGuards<V>(s: State<V>, p: Pid, cfg: Config)
    requires PcOf(s, p).Writing?
    ensures var key := PcOf(s, p).key;
            Guarded(Next(s, WriteOk(p), cfg).value, key, s.now + cfg.ttl(key), cfg)
  {
  }

  lemma {:induction false} RunKeepsFlight<V>(s: State<V>, steps: seq<Step<V>>, cfg: Config, p: Pid, key: string)
    requires InFlightOrSettled(s, p, key, cfg) && cfg.reliable(key)
    requires Run(s, steps, cfg).Some? && AllQuiet(steps, key)
    ensures InFlightOrSettled(Run(s, steps, cfg).value, p, key, cfg)
    decreases |steps|
  {
    if steps != [] {
      StepKeepsFlight(s, steps[0], cfg, p, key);
      RunKeepsFlight(Next(s, steps[0], cfg).value, steps[1..], cfg, p, key);
    }
  }

  /** In reliable mode, from the moment a call is inside the wrapped function no other call
      enters it for that key until the first one has raised, or its written value expired. */
  lemma ReliableSingleFlight<V>(now: Time, before: seq<Step<V>>, during: seq<Step<V>>, next: Step<V>, cfg: Config,
                                p: Pid, key: string)
    requires NoClear(before) && AllQuiet(during, key) && cfg.reliable(key)
    requires Run(Start<V>(now), before, cfg).Some?
    requires var s := Run(Start<V>(now), before, cfg).value;
             && PcOf(s, p).Fetching? && PcOf(s, p).key == key
             && Run(s, during, cfg).Some? && StartsFetch(Run(s, during, cfg).value, next, key)
    ensures var t := Run(Run(Start<V>(now), before, cfg).value, during, cfg).value;
            PcOf(t, p).Raised? || (PcOf(t, p).Returned? && PcOf(t, p).landed.Some? && t.now > PcOf(t, p).landed.value)
  {
    var s := Run(Start<V>(now), before, cfg).value;
    RunKeepsInv(Start<V>(now), before, cfg, {});
    RunKeepsInv(s, during, cfg, {});
    RunKeepsFlight(s, during, cfg, p, key);
  }

  // ----- what the guarantees leave out -----

  function Enter<V>(p: Pid, key: string): seq<Step<V>> {
    [Call(p, key), FastGet(p), TakeLock(p), Acquire(p), Recheck(p)]
  }

  lemma {:induction false} RunAppend<V>(s: State<V>, a: seq<Step<V>>, b: seq<Step<V>>, cfg: Config)
    requires Run(s, a, cfg).Some?
    ensures Run(s, a + b, cfg) == Run(Run(s, a, cfg).value, b, cfg)
    decreases |a|
  {
    if a == [] {
      assert a + b == b;
    } else {
      assert (a + b)[1..] == a[1..] + b;
      RunAppend(Next(s, a[0], cfg).value, a[1..], b, cfg);
    }
  }

  lemma RunOne<V>(s: State<V>, step: Step<V>, cfg: Config)
    ensures Run(s, [step], cfg) == Next(s, step, cfg)
  {
    assert [step][1..] == [];
  }

  /** A call that finds no entry and a free lock gets into the wrapped function. */
  lemma EnterReachesFetch<V>(s: State<V>, p: Pid, key: string, cfg: Config)
    requires p !in s.procs && key !in s.store
    requires key in s.locks ==> s.locks[key] !in s.held
    requires key !in s.locks ==> s.nextLock !in s.held
    ensures Run(s, Enter(p, key), cfg).Some?
    ensures var t := Run(s, Enter(p, key), cfg).value;
            && PcOf(t, p).Fetching? && PcOf(t, p).key == key
            && (forall q :: q != p ==> PcOf(t, q) == PcOf(s, q))
            && t.store == s.store && t.tasks == s.tasks
            && key in t.locks && t.held == s.held[t.locks[key] := p] && PcOf(t, p).lock == t.locks[key]
            && t.nextLock == WithLock(s, key).nextLock && t.locks == WithLock(s, key).locks
            && t.procs.Keys == s.procs.Keys + {p}
  {
    var s2 := AskForLock(s, p, key, cfg);
    LockToFetch(s2, p, key, cfg);
    assert Enter<V>(p, key) == [Call(p, key), FastGet(p)] + [TakeLock(p), Acquire(p), Recheck(p)];
    RunAppend(s, [Call(p, key), FastGet(p)], [TakeLock(p), Acquire(p), Recheck(p)], cfg);
  }

  lemma AskForLock<V>(s: State<V>, p: Pid, key: string, cfg: Config) returns (t: State<V>)
    requires p !in s.procs && key !in s.store
    ensures Run(s, [Call(p, key), FastGet(p)], cfg) == Some(t)
    ensures t == Move(s, p, Missed(key))
  {
    var s1 := Next(s, Call(p, key), cfg).value;
    t := Next(s1, FastGet(p), cfg).value;
    assert s1.procs[p := Missed(key)] == s.procs[p := Missed(key)];
    var steps: seq<Step<V>> := [Call(p, key), FastGet(p)];
    assert steps[1..] == [FastGet(p)];
    RunOne(s1, FastGet(p), cfg);
  }

  lemma LockToFetch<V>(s: State<V>, p: Pid, key: string, cfg: Config)
    requires PcOf(s, p) == Missed(key) && key !in s.store
    requires key in s.locks ==> s.locks[key] !in s.held
    requires key !in s.locks ==> s.nextLock !in s.held
    ensures Run(s, [TakeLock(p), Acquire(p), Recheck(p)], cfg).Some?
    ensures var t := Run(s, [TakeLock(p), Acquire(p), Recheck(p)], cfg).value;
            && PcOf(t, p).Fetching? && PcOf(t, p).key == key
            && (forall q :: q != p ==> PcOf(t, q) == PcOf(s, q))
            && t.store == s.store && t.tasks == s.tasks
            && key in t.locks && t.held == s.held[t.locks[key] := p] && PcOf(t, p).lock == t.locks[key]
            && t.nextLock == WithLock(s, key).nextLock && t.locks == WithLock(s, key).locks
            && t.procs.Keys == s.procs.Keys + {p}
  {
    var s1 := Next(s, TakeLock(p), cfg).value;
    var s2 := Next(s1, Acquire(p), cfg).value;
    var steps: seq<Step<V>> := [TakeLock(p), Acquire(p), Recheck(p)];
    assert steps[1..] == [Acquire(p), Recheck(p)] && steps[1..][1..] == [Recheck(p)];
    RunOne(s2, Recheck(p), cfg);
  }

  /** With a `clear` in between, two calls can be inside the wrapped function of one key:
      the second one gets a new lock object. */
  lemma ClearAdmitsTwo(cfg: Config, key: string) returns (steps: seq<Step<int>>)
    ensures Run(Start<int>(0.0), steps, cfg).Some?
    ensures var s := Run(Start<int>(0.0), steps, cfg).value;
            PcOf(s, 0).Fetching? && PcOf(s, 1).Fetching? && PcOf(s, 0).key == key && PcOf(s, 1).key == key
  {
    var s0 := Start<int>(0.0);
    EnterReachesFetch(s0, 0, key, cfg);
    var s1 := Run(s0, Enter(0, key), cfg).value;
    RunOne(s1, ClearAll, cfg);
    RunAppend(s0, Enter(0, key), [ClearAll], cfg);
    var s2 := Next(s1, ClearAll, cfg).value;
    EnterReachesFetch(s2, 1, key, cfg);
    steps := Enter(0, key) + [ClearAll] + Enter(1, key);
    RunAppend(s0, Enter(0, key) + [ClearAll], Enter(1, key), cfg);
  }

  // ----- whose values are stored and answered -----

  /** The value a step brings in for a key: what the wrapped function gave, or a set from outside. */
  ghost function ProducedBy<V>(s: State<V>, step: Step<V>): set<(string, V)> {
    match step
    case FetchOk(p, value) => if PcOf(s, p).Fetching? then {(PcOf(s, p).key, value)} else {}
    case SetKey(key, value, _) => {(key, value)}
    case _ => {}
  }

  /** All values a run brings in. */
  ghost function Produced<V>(s: State<V>, steps: seq<Step<V>>, cfg: Config): set<(string, V)>
    requires Run(s, steps, cfg).Some?
    decreases |steps|
  {
    if steps == [] then {}
    else ProducedBy(s, steps[0]) + Produced(Next(s, steps[0], cfg).value, steps[1..], cfg)
  }

  /** Every value anywhere in the state was produced for the key it stands under. */
  ghost predicate Sourced<V>(s: State<V>, made: set<(string, V)>) {
    && (forall k <- s.store :: (k, s.store[k].value) in made)
    && (forall t <- s.tasks :: (t.key, t.value) in made)
    && (forall p <- s.procs :: ValueSourced(s.procs[p], made))
  }

  ghost predicate ValueSourced<V>(pc: Pc<V>, made: set<(string, V)>) {
    pc.Writing? || pc.Returned? ==> (pc.key, pc.value) in made
  }

  lemma TasksWithout<V>(tasks: seq<Task<V>>, i: nat)
    requires i < |tasks|
    ensures forall t <- Without(tasks, i) :: t in tasks
  {
  }

  lemma StepKeepsStored<V>(s: State<V>, step: Step<V>, cfg: Config, made: set<(string, V)>)
    requires Sourced(s, made) && Next(s, step, cfg).Some?
    ensures var t, more := Next(s, step, cfg).value, made + ProducedBy(s, step);
            forall k <- t.store :: (k, t.store[k].value) in more
  {
    hide Without;
    if step.WriteOk? {
      assert ValueSourced(s.procs[step.p], made);
    }
  }

  lemma StepKeepsTasks<V>(s: State<V>, step: Step<V>, cfg: Config, made: set<(string, V)>)
    requires Sourced(s, made) && Next(s, step, cfg).Some?
    ensures var t, more := Next(s, step, cfg).value, made + ProducedBy(s, step);
            forall task <- t.tasks :: (task.key, task.value) in more
  {
    hide C.Evict, C.Lookup, Without, ValueSourced;
    if (step.Land? || step.LandFail?) && step.i < |s.tasks| {
      TasksWithout(s.tasks, step.i);
    }
  }

  lemma StepKeepsAnswers<V>(s: State<V>, step: Step<V>, cfg: Config, made: set<(string, V)>, p: Pid)
    requires Sourced(s, made) && Next(s, step, cfg).Some? && p in Next(s, step, cfg).value.procs
    ensures ValueSourced(Next(s, step, cfg).value.procs[p], made + ProducedBy(s, step))
  {
    hide C.Evict, Without, Written, WithLock, Read;
    var pc := Next(s, step, cfg).value.procs[p];
    if pc == PcOf(s, p) {
      assert p in s.procs ==> ValueSourced(s.procs[p], made);
    } else {
      OnlyItsStepMoves(s, step, cfg, p);
      assert p in s.procs ==> ValueSourced(s.procs[p], made);
    }
  }

  lemma StepKeepsSourced<V>(s: State<V>, step: Step<V>, cfg: Config, made: set<(string, V)>)
    requires Sourced(s, made) && Next(s, step, cfg).Some?
    ensures Sourced(Next(s, step, cfg).value, made + ProducedBy(s, step))
  {
    hide Next, ProducedBy, ValueSourced;
    StepKeepsStored(s, step, cfg, made);
    StepKeepsTasks(s, step, cfg, made);
    forall p | p in Next(s, step, cfg).value.procs
      ensures ValueSourced(Next(s, step, cfg).value.procs[p], made + ProducedBy(s, step))
    {
      StepKeepsAnswers(s, step, cfg, made, p);
    }
  }

  lemma {:induction false} RunKeepsSourced<V>(s: State<V>, steps: seq<Step<V>>, cfg: Config, made: set<(string, V)>)
    requires Sourced(s, made) && Run(s, steps, cfg).Some?
    ensures Sourced(Run(s, steps, cfg).value, made + Produced(s, steps, cfg))
    decreases |steps|
  {
    hide Sourced, Next, ProducedBy;
    if steps == [] {
      assert made + {} == made;
    } else {
      var t, more := Next(s, steps[0], cfg).value, made + ProducedBy(s, steps[0]);
      StepKeepsSourced(s, steps[0], cfg, made);
      RunKeepsSourced(t, steps[1..], cfg, more);
      assert made + Produced(s, steps, cfg) == more + Produced(t, steps[1..], cfg);
    }
  }

  /** Step `i` of the run brought in `value` for `key`: a call then fetching that key got it from
      the wrapped function, or it was set from outside. */
  ghost predicate Brings<V>(s: State<V>, steps: seq<Step<V>>, i: nat, cfg: Config, key: string, value: V)
    requires i < |steps|
  {
    Run(s, steps[..i], cfg).Some?
    && match steps[i]
       case FetchOk(p, v) =>
         var pc := PcOf(Run(s, steps[..i], cfg).value, p);
         pc.Fetching? && pc.key == key && v == value
       case SetKey(k, v, _) => k == key && v == value
       case _ => false
  }

  lemma {:induction false} ProducedWhen<V>(s: State<V>, steps: seq<Step<V>>, cfg: Config, key: string, value: V)
    returns (i: nat)
    requires Run(s, steps, cfg).Some? && (key, value) in Produced(s, steps, cfg)
    ensures i < |steps| && Brings(s, steps, i, cfg, key, value)
    decreases |steps|
  {
    if (key, value) in ProducedBy(s, steps[0]) {
      i := 0;
      assert steps[..0] == [];
    } else {
      var j := ProducedWhen(Next(s, steps[0], cfg).value, steps[1..], cfg, key, value);
      i := j + 1;
      assert steps[..i][1..] == steps[1..][..j] && steps[..i][0] == steps[0];
    }
  }

  /** Over every run: what is stored under a key was produced for that key by an earlier step. */
  lemma StoredValueHasSource<V>(now: Time, steps: seq<Step<V>>, cfg: Config, key: string) returns (i: nat)
    requires Run(Start<V>(now), steps, cfg).Some? && key in Run(Start<V>(now), steps, cfg).value.store
    ensures i < |steps|
    ensures Brings(Start(now), steps, i, cfg, key, Run(Start(now), steps, cfg).value.store[key].value)
  {
    RunKeepsSourced(Start(now), steps, cfg, {});
    i := ProducedWhen(Start(now), steps, cfg, key, Run(Start(now), steps, cfg).value.store[key].value);
  }

  /** Over every run: what a call answers was produced for its own key by an earlier step. */
  lemma AnswerHasSource<V>(now: Time, steps: seq<Step<V>>, cfg: Config, p: Pid) returns (i: nat)
    requires Run(Start<V>(now), steps, cfg).Some? && PcOf(Run(Start<V>(now), steps, cfg).value, p).Returned?
    ensures i < |steps|
    ensures var pc := PcOf(Run(Start(now), steps, cfg).value, p);
            Brings(Start(now), steps, i, cfg, pc.key, pc.value)
  {
    RunKeepsSourced(Start(now), steps, cfg, {});
    var pc := PcOf(Run(Start(now), steps, cfg).value, p);
    assert ValueSourced(pc, {} + Produced(Start(now), steps, cfg));
    i := ProducedWhen(Start(now), steps, cfg, pc.key, pc.value);
  }

  /** A call that got `value` from the wrapped function: writing it, answering it, or raised. */
  ghost predicate Carries<V>(pc: Pc<V>, key: string, value: V) {
    pc == Raised(key) || ((pc.Writing? || pc.Returned?) && pc.key == key && pc.value == value)
  }

  lemma StepKeepsCarried<V>(s: State<V>, step: Step<V>, cfg: Config, p: Pid, key: string, value: V)
    requires Carries(PcOf(s, p), key, value) && Next(s, step, cfg).Some?
    ensures Carries(PcOf(Next(s, step, cfg).value, p), key, value)
  {
    hide C.Evict, C.Lookup, Without, Written, WithLock, Read;
    if PcOf(Next(s, step, cfg).value, p) != PcOf(s, p) {
      OnlyItsStepMoves(s, step, cfg, p);
    }
  }

  lemma {:induction false} RunKeepsCarried<V>(s: State<V>, steps: seq<Step<V>>, cfg: Config, p: Pid, key: string,
                                              value: V)
    requires Carries(PcOf(s, p), key, value) && Run(s, steps, cfg).Some?
    ensures Carries(PcOf(Run(s, steps, cfg).value, p), key, value)
    decreases |steps|
  {
    if steps != [] {
      StepKeepsCarried(s, steps[0], cfg, p, key, value);
      RunKeepsCarried(Next(s, steps[0], cfg).value, steps[1..], cfg, p, key, value);
    }
  }

  /** A call that fetched answers with its own fetched value or raises, whatever runs in between. */
  lemma FetchedIsAnswered<V>(s: State<V>, p: Pid, value: V, steps: seq<Step<V>>, cfg: Config)
    requires PcOf(s, p).Fetching? && Run(s, [FetchOk(p, value)] + steps, cfg).Some?
    ensures Carries(PcOf(Run(s, [FetchOk(p, value)] + steps, cfg).value, p), PcOf(s, p).key, value)
  {
    var all := [FetchOk(p, value)] + steps;
    assert all[1..] == steps;
    RunKeepsCarried(Next(s, all[0], cfg).value, steps, cfg, p, PcOf(s, p).key, value);
  }

  /** A hit, on the fast path or under the lock, answers with the entry found at that moment; a miss
      goes on with the same key. */
  lemma HitAnswersEntry<V>(s: State<V>, p: Pid, cfg: Config)
    requires PcOf(s, p).Called? || PcOf(s, p).Holding?
    ensures var key := PcOf(s, p).key;
            var t := Next(s, if PcOf(s, p).Called? then FastGet(p) else Recheck(p), cfg);
            && t.Some?
            && (key in s.store && s.now <= s.store[key].expiresAt ==>
                  PcOf(t.value, p) == Returned(key, s.store[key].value, None))
            && (key !in s.store || s.now > s.store[key].expiresAt ==>
                  PcOf(t.value, p) == if PcOf(s, p).Called? then Missed(key) else Fetching(key, PcOf(s, p).lock))
  {
  }

  /** Whatever runs, a call stays with the key it was made for. */
  lemma {:induction false} CallKeepsKey<V>(s: State<V>, steps: seq<Step<V>>, cfg: Config, p: Pid)
    requires !PcOf(s, p).Idle? && Run(s, steps, cfg).Some?
    ensures var pc := PcOf(Run(s, steps, cfg).value, p); !pc.Idle? && pc.key == PcOf(s, p).key
    decreases |steps|
  {
    if steps != [] {
      StepKeepsKey(s, steps[0], cfg, p);
      CallKeepsKey(Next(s, steps[0], cfg).value, steps[1..], cfg, p);
    }
  }

  lemma StepKeepsKey<V>(s: State<V>, step: Step<V>, cfg: Config, p: Pid)
    requires !PcOf(s, p).Idle? && Next(s, step, cfg).Some?
    ensures var pc := PcOf(Next(s, step, cfg).value, p); !pc.Idle? && pc.key == PcOf(s, p).key
  {
    hide C.Evict, C.Lookup, Without, Written, WithLock, Read;
    if PcOf(Next(s, step, cfg).value, p) != PcOf(s, p) {
      OnlyItsStepMoves(s, step, cfg, p);
    }
  }

  /** An awaited write is tried three times: two failures leave the call writing, the third raises
      and gives the lock back. */
  lemma ThirdFailureRaises<V>(s: State<V>, p: Pid, value: V, cfg: Config)
    requires PcOf(s, p).Fetching? && cfg.reliable(PcOf(s, p).key)
    ensures var two := Run(s, [FetchOk(p, value), WriteFail(p), WriteFail(p)], cfg);
            && two.Some? && PcOf(two.value, p).Writing? && PcOf(two.value, p).value == value
            && Next(two.value, WriteOk(p), cfg).Some? && Next(two.value, WriteFail(p), cfg).Some?
            && PcOf(Next(two.value, WriteFail(p), cfg).value, p) == Raised(PcOf(s, p).key)
            && PcOf(s, p).lock !in Next(two.value, WriteFail(p), cfg).value.held
  {
    var steps: seq<Step<V>> := [FetchOk(p, value), WriteFail(p), WriteFail(p)];
    assert steps[1..] == [WriteFail(p), WriteFail(p)] && steps[1..][1..] == [WriteFail(p)];
    var s1 := Next(s, FetchOk(p, value), cfg).value;
    var s2 := Next(s1, WriteFail(p), cfg).value;
    RunOne(s2, WriteFail(p), cfg);
  }

  /** No entry outlives its key's lifetime, counted from now. */
  ghost predicate Fresh<V>(s: State<V>, cfg: Config) {
    forall k <- s.store :: s.store[k].expiresAt <= s.now + cfg.ttl(k)
  }

  /** Unless set from outside, an entry is gone or stale once its key's lifetime has passed. */
  lemma {:induction false} EntriesAreFresh<V>(s: State<V>, steps: seq<Step<V>>, cfg: Config)
    requires Fresh(s, cfg) && Run(s, steps, cfg).Some? && forall step <- steps :: !step.SetKey?
    ensures Fresh(Run(s, steps, cfg).value, cfg)
    decreases |steps|
  {
    if steps != [] {
      StepKeepsFresh(s, steps[0], cfg);
      EntriesAreFresh(Next(s, steps[0], cfg).value, steps[1..], cfg);
    }
  }

  lemma StepKeepsFresh<V>(s: State<V>, step: Step<V>, cfg: Config)
    requires Fresh(s, cfg) && Next(s, step, cfg).Some? && !step.SetKey?
    ensures Fresh(Next(s, step, cfg).value, cfg)
  {
  }

  // ----- when a clear is harmless -----

  /** A clear can split this call from the calls to come: it still needs its lock object. */
  predicate NeedsLock<V>(pc: Pc<V>) {
    pc.Waiting? || pc.Holding? || pc.Fetching?
  }

  ghost predicate Harmless<V(!new)>(s: State<V>, cfg: Config) {
    forall steps: seq<Step<V>> :: NoClear(steps) && Run(s, steps, cfg).Some? ==> OneFetchEach(Run(s, steps, cfg).value)
  }

  /** Calls that only write keep their lock objects as orphans. */
  lemma ClearKeepsInv<V>(s: State<V>)
    requires Inv(s, {}) && forall p <- s.procs :: !NeedsLock(s.procs[p])
    ensures Inv(s.(store := map[], locks := map[]), s.held.Keys)
  {
    HeldLocksAreOld(s);
  }

  lemma HeldLocksAreOld<V>(s: State<V>)
    requires Inv(s, {})
    ensures forall l <- s.held :: l < s.nextLock
  {
    forall l <- s.held
      ensures l < s.nextLock
    {
      var pc := s.procs[s.held[l]];
      assert Attached(s, pc) && s.locks[pc.key] < s.nextLock;
    }
  }

  lemma QuietClearIsHarmless<V(!new)>(s: State<V>, cfg: Config)
    requires Inv(s, {}) && forall p <- s.procs :: !NeedsLock(s.procs[p])
    ensures Harmless(s.(store := map[], locks := map[]), cfg)
  {
    var t := s.(store := map[], locks := map[]);
    ClearKeepsInv(s);
    forall steps: seq<Step<V>> | NoClear(steps) && Run(t, steps, cfg).Some?
      ensures OneFetchEach(Run(t, steps, cfg).value)
    {
      RunKeepsInv(t, steps, cfg, s.held.Keys);
      InvMeansOneFetch(Run(t, steps, cfg).value, s.held.Keys);
    }
  }

  lemma {:induction false} FreshPid(used: set<Pid>) returns (q: Pid)
    ensures forall p <- used :: p < q
  {
    if used == {} {
      q := 0;
    } else {
      var p :| p in used;
      var r := FreshPid(used - {p});
      q := if r > p then r else p + 1;
      assert forall x <- used :: x == p || x in used - {p};
    }
  }

  /** A call that was inside the wrapped function at the clear meets a second one. */
  lemma FetchingMeetsAnother<V>(t: State<V>, p: Pid, cfg: Config) returns (steps: seq<Step<V>>)
    requires PcOf(t, p).Fetching? && PcOf(t, p).key !in t.store && PcOf(t, p).key !in t.locks && t.nextLock !in t.held
    ensures NoClear(steps) && Run(t, steps, cfg).Some? && !OneFetchEach(Run(t, steps, cfg).value)
  {
    var q := FreshPid(t.procs.Keys);
    var key := PcOf(t, p).key;
    EnterReachesFetch(t, q, key, cfg);
    steps := Enter(q, key);
    var u := Run(t, steps, cfg).value;
    assert p != q && PcOf(u, p) == PcOf(t, p) && PcOf(u, q).Fetching?;
  }

  /** The same, some steps earlier. */
  lemma SoonMeetsAnother<V>(t: State<V>, first: seq<Step<V>>, u: State<V>, p: Pid, cfg: Config)
    returns (steps: seq<Step<V>>)
    requires NoClear(first) && Run(t, first, cfg) == Some(u)
    requires PcOf(u, p).Fetching? && PcOf(u, p).key !in u.store && PcOf(u, p).key !in u.locks && u.nextLock !in u.held
    ensures NoClear(steps) && Run(t, steps, cfg).Some? && !OneFetchEach(Run(t, steps, cfg).value)
  {
    var rest := FetchingMeetsAnother(u, p, cfg);
    steps := first + rest;
    RunAppend(t, first, rest, cfg);
  }

  /** A state just after a clear: nothing stored, no key has a lock object, every held one is old. */
  predicate Cleared<V>(t: State<V>) {
    t.store == map[] && t.locks == map[] && forall l <- t.held :: l < t.nextLock
  }

  lemma HolderMeetsAnother<V>(t: State<V>, p: Pid, cfg: Config) returns (steps: seq<Step<V>>)
    requires Cleared(t) && (PcOf(t, p).Holding? || PcOf(t, p).Fetching?)
    ensures NoClear(steps) && Run(t, steps, cfg).Some? && !OneFetchEach(Run(t, steps, cfg).value)
  {
    if PcOf(t, p).Fetching? {
      steps := FetchingMeetsAnother(t, p, cfg);
    } else {
      RunOne(t, Recheck(p), cfg);
      steps := SoonMeetsAnother(t, [Recheck(p)], Next(t, Recheck(p), cfg).value, p, cfg);
    }
  }

  /** A waiting call whose lock is free. */
  lemma WaiterMeetsAnother<V>(t: State<V>, p: Pid, cfg: Config) returns (steps: seq<Step<V>>)
    requires Cleared(t) && PcOf(t, p).Waiting? && PcOf(t, p).lock !in t.held && PcOf(t, p).lock < t.nextLock
    ensures NoClear(steps) && Run(t, steps, cfg).Some? && !OneFetchEach(Run(t, steps, cfg).value)
  {
    var u := Next(t, Acquire(p), cfg).value;
    var rest := HolderMeetsAnother(u, p, cfg);
    steps := [Acquire(p)] + rest;
    RunOne(t, Acquire(p), cfg);
    RunAppend(t, [Acquire(p)], rest, cfg);
  }

  /** A waiting call whose lock is held by a write: the write lands, and the key is deleted. */
  lemma WaiterAfterWrite<V>(t: State<V>, p: Pid, r: Pid, cfg: Config) returns (steps: seq<Step<V>>)
    requires Cleared(t) && PcOf(t, p).Waiting? && PcOf(t, p).lock < t.nextLock
    requires PcOf(t, r).Writing? && PcOf(t, r).lock == PcOf(t, p).lock && PcOf(t, r).key == PcOf(t, p).key
    ensures NoClear(steps) && Run(t, steps, cfg).Some? && !OneFetchEach(Run(t, steps, cfg).value)
  {
    var key := PcOf(t, p).key;
    var u := Next(t, WriteOk(r), cfg).value;
    var w := Next(u, DeleteKey(key), cfg).value;
    var first: seq<Step<V>> := [WriteOk(r), DeleteKey(key)];
    assert first[1..] == [DeleteKey(key)];
    RunOne(u, DeleteKey(key), cfg);
    assert w.store == map[];
    var rest := WaiterMeetsAnother(w, p, cfg);
    steps := first + rest;
    RunAppend(t, first, rest, cfg);
  }

  lemma LoudClearAdmitsTwo<V(!new)>(s: State<V>, p: Pid, cfg: Config)
    requires Inv(s, {}) && NeedsLock(PcOf(s, p))
    ensures !Harmless(s.(store := map[], locks := map[]), cfg)
  {
    HeldLocksAreOld(s);
    var t := s.(store := map[], locks := map[]);
    var pc := PcOf(s, p);
    var steps;
    if !pc.Waiting? {
      steps := HolderMeetsAnother(t, p, cfg);
    } else if pc.lock !in s.held {
      steps := WaiterMeetsAnother(t, p, cfg);
    } else if PcOf(s, s.held[pc.lock]).Writing? {
      steps := WaiterAfterWrite(t, p, s.held[pc.lock], cfg);
    } else {
      steps := HolderMeetsAnother(t, s.held[pc.lock], cfg);
    }
  }

  /** After a run without `clear`, one clear leaves single flight intact in every later
      interleaving exactly when at that moment no call waits for its lock, rechecks under it, or
      fetches; a call that only writes its fetched value does no harm. */
  lemma ClearIsHarmlessIff<V(!new)>(now: Time, before: seq<Step<V>>, cfg: Config)
    requires NoClear(before) && Run(Start<V>(now), before, cfg).Some?
    ensures var s := Run(Start<V>(now), before, cfg).value;
            Harmless(Next(s, ClearAll, cfg).value, cfg) <==> forall p <- s.procs :: !NeedsLock(s.procs[p])
  {
    var s := Run(Start<V>(now), before, cfg).value;
    RunKeepsInv(Start<V>(now), before, cfg, {});
    if forall p <- s.procs :: !NeedsLock(s.procs[p]) {
      QuietClearIsHarmless(s, cfg);
    } else {
      var p :| p in s.procs && NeedsLock(s.procs[p]);
      LoudClearAdmitsTwo(s, p, cfg);
    }
  }

  // ----- what the scheduled write leaves open -----

  /** Without reliable mode the protocol does not order the scheduled write before the lock's
      release: until the scheduled write runs, another call can fetch again. */
  lemma UnlandedTaskAdmitsAnother(cfg: Config, key: string) returns (steps: seq<Step<int>>)
    requires !cfg.reliable(key)
    ensures Run(Start<int>(0.0), steps, cfg).Some?
    ensures var s := Run(Start<int>(0.0), steps, cfg).value;
            PcOf(s, 0) == Returned(key, 7, None) && PcOf(s, 1).Fetching? && s.tasks == [Task(key, 7)]
  {
    var s0 := Start<int>(0.0);
    EnterReachesFetch(s0, 0, key, cfg);
    var s1 := Run(s0, Enter(0, key), cfg).value;
    RunOne(s1, FetchOk(0, 7), cfg);
    RunAppend(s0, Enter(0, key), [FetchOk(0, 7)], cfg);
    var s2 := Next(s1, FetchOk(0, 7), cfg).value;
    EnterReachesFetch(s2, 1, key, cfg);
    steps := Enter(0, key) + [FetchOk(0, 7)] + Enter(1, key);
    RunAppend(s0, Enter(0, key) + [FetchOk(0, 7)], Enter(1, key), cfg);
  }
}
