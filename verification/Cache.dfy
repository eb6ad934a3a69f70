/**
 The in-memory cache with a lifetime per entry. Expired entries are dropped when a read
 meets them; over every history the reads still answer like a map that never drops any.
 */
module Cache {
  import opened Text

  /** Seconds on a monotonic clock. */
  type Time = real

  const DEFAULT_TTL: Time := 300.0

  datatype Entry<V> = Entry(value: V, expiresAt: Time)

  type Store<V> = map<string, Entry<V>>

  datatype Op<V> =
    | Get(key: string)
    | Set(key: string, value: V, ttl: Option<Time>)
    | Delete(key: string)
    | Clear

  /** An operation and the clock when it ran. */
  datatype Event<V> = Event(op: Op<V>, at: Time)

  // ----- the code's map -----

  predicate Expired<V>(e: Entry<V>, now: Time) {
    now > e.expiresAt
  }

  /** None is the miss sentinel, so a stored None is a `Some`. */
  function Lookup<V>(store: Store<V>, key: string, now: Time): Option<V> {
    if key in store && !Expired(store[key], now) then Some(store[key].value) else None
  }

  function Evict<V>(store: Store<V>, key: string, now: Time): Store<V> {
    if key in store && Expired(store[key], now) then store - {key} else store
  }

  function Lifetime(ttl: Option<Time>, default: Time): Time {
    if ttl.Some? then ttl.value else default
  }

  function Apply<V>(store: Store<V>, e: Event<V>, default: Time): Store<V> {
    match e.op
    case Get(key) => Evict(store, key, e.at)
    case Set(key, value, ttl) => store[key := Entry(value, e.at + Lifetime(ttl, default))]
    case Delete(key) => store - {key}
    case Clear => map[]
  }

  function Run<V>(history: seq<Event<V>>, default: Time): Store<V> {
    if history == [] then map[]
    else Apply(Run(history[..|history| - 1], default), history[|history| - 1], default)
  }

  // ----- the plain map: the latest write wins, reads change nothing -----

  function Latest<V>(history: seq<Event<V>>, key: string, default: Time): Option<Entry<V>> {
    if history == [] then None
    else
      var e, before := history[|history| - 1], history[..|history| - 1];
      match e.op
      case Get(_) => Latest(before, key, default)
      case Set(k, value, ttl) =>
        if k == key then Some(Entry(value, e.at + Lifetime(ttl, default))) else Latest(before, key, default)
      case Delete(k) => if k == key then None else Latest(before, key, default)
      case Clear => None
  }

  /** The latest value set, when it was not deleted or cleared since and its lifetime is not past. */
  function Remembered<V>(history: seq<Event<V>>, key: string, now: Time, default: Time): Option<V> {
    match Latest(history, key, default)
    case Some(e) => if now <= e.expiresAt then Some(e.value) else None
    case None => None
  }

  predicate Ordered<V>(history: seq<Event<V>>) {
    forall i, j :: 0 <= i < j < |history| ==> history[i].at <= history[j].at
  }

  /** What the two maps have in common at the end of a history. */
  ghost predicate Agrees<V>(history: seq<Event<V>>, key: string, default: Time) {
    var store, latest := Run(history, default), Latest(history, key, default);
    if key in store then latest == Some(store[key])
    else latest.Some? ==> history != [] && Expired(latest.value, history[|history| - 1].at)
  }

  lemma {:induction false} RunAgrees<V>(history: seq<Event<V>>, key: string, default: Time)
    requires Ordered(history)
    ensures Agrees(history, key, default)
  {
    if history != [] {
      RunAgrees(history[..|history| - 1], key, default);
    }
  }

  /** With a clock that never goes back, dropping expired entries on read is invisible. */
  lemma LazyEvictionIsInvisible<V>(history: seq<Event<V>>, key: string, now: Time, default: Time)
    requires Ordered(history) && forall e <- history :: e.at <= now
    ensures Lookup(Run(history, default), key, now) == Remembered(history, key, now, default)
  {
    RunAgrees(history, key, default);
    if history != [] {
      assert history[|history| - 1] in history;
    }
  }

  /** On a clock that went back, a dropped entry would still have been alive. */
  lemma ClockMustNotGoBack()
    ensures var history := [Event(Set("k", 7, Some(1.0)), 0.0), Event(Get("k"), 2.0)];
            && !Ordered(history + [Event(Get("k"), 1.0)])
            && Lookup(Run(history, DEFAULT_TTL), "k", 1.0) == None
            && Remembered(history, "k", 1.0, DEFAULT_TTL) == Some(7)
  {
    var history := [Event(Set("k", 7, Some(1.0)), 0.0), Event(Get("k"), 2.0)];
    var h1 := [Event(Set("k", 7, Some(1.0)), 0.0)];
    assert history[..1] == h1 && h1[..0] == [];
    assert Run(h1, DEFAULT_TTL) == map["k" := Entry(7, 1.0)];
    assert (history + [Event(Get("k"), 1.0)])[1].at > (history + [Event(Get("k"), 1.0)])[2].at;
  }

  // ----- the object -----

  class CacheFactory<V> {
    const ttl: Time
    var store: Store<V>
    ghost var history: seq<Event<V>>

    ghost predicate Valid()
      reads this
    {
      Ordered(history) && store == Run(history, ttl)
    }

    /** The clock has not passed `now` yet. */
    ghost predicate NotAfter(now: Time)
      reads this
    {
      forall e <- history :: e.at <= now
    }

    constructor (ttl: Time)
      ensures Valid() && this.ttl == ttl && history == []
    {
      this.ttl := ttl;
      store := map[];
      history := [];
    }

    /** `get`: the answer of the map that never drops anything. */
    method Read(key: string, now: Time) returns (r: Option<V>)
      requires Valid() && NotAfter(now)
      modifies this
      ensures Valid() && NotAfter(now) && history == old(history) + [Event(Get(key), now)]
      ensures r == Remembered(old(history), key, now, ttl)
    {
      LazyEvictionIsInvisible(history, key, now, ttl);
      Record(Event(Get(key), now));
      if key !in store {
        return None;
      }
      var entry := store[key];
      if now > entry.expiresAt {
        store := store - {key};
        return None;
      }
      return Some(entry.value);
    }

    /** `set` */
    method Write(key: string, value: V, lifetime: Option<Time>, now: Time)
      requires Valid() && NotAfter(now)
      modifies this
      ensures Valid() && NotAfter(now) && history == old(history) + [Event(Set(key, value, lifetime), now)]
    {
      hide Run, Ordered;
      Record(Event(Set(key, value, lifetime), now));
      var effective := if lifetime.Some? then lifetime.value else ttl;
      store := store[key := Entry(value, now + effective)];
    }

    /** `delete` */
    method Drop(key: string, now: Time)
      requires Valid() && NotAfter(now)
      modifies this
      ensures Valid() && NotAfter(now) && history == old(history) + [Event(Delete(key), now)]
    {
      hide Run, Ordered;
      Record(Event(Delete(key), now));
      store := store - {key};
    }

    /** `clear` */
    method Empty(now: Time)
      requires Valid() && NotAfter(now)
      modifies this
      ensures Valid() && NotAfter(now) && history == old(history) + [Event(Clear, now)]
    {
      hide Run, Ordered;
      Record(Event(Clear, now));
      store := map[];
    }

    ghost method Record(e: Event<V>)
      requires Valid() && NotAfter(e.at)
      modifies this`history
      ensures history == old(history) + [e] && Ordered(history) && NotAfter(e.at)
      ensures Run(history, ttl) == Apply(store, e, ttl)
    {
      history := history + [e];
      assert history[..|history| - 1] == old(history);
    }
  }
}
