/**
 The bounded log of signals already sent: a signal is granted once while it is in the log,
 and the oldest entry goes first. Calls are made under one lock, so a run is a sequence of
 claims in the order the lock admits them.
 */
module Telemetry {

  type Signal = (string, string)

  const MAX_SIZE: nat := 10_000

  type Log = seq<Signal>

  /** The log after a claim, oldest entry first. */
  function Claimed(log: Log, signal: Signal, max: nat): Log {
    if signal in log then log
    else if |log| + 1 > max then (log + [signal])[1..]
    else log + [signal]
  }

  /** The log after a run of claims. */
  function After(log: Log, signals: seq<Signal>, max: nat): Log
    decreases |signals|
  {
    if signals == [] then log else After(Claimed(log, signals[0], max), signals[1..], max)
  }

  /** Claim `i` of the run is answered True. */
  predicate Granted(log: Log, signals: seq<Signal>, i: nat, max: nat)
    requires i < |signals|
  {
    signals[i] !in After(log, signals[..i], max)
  }

  predicate NoRepeats(log: Log) {
    forall i, j :: 0 <= i < j < |log| ==> log[i] != log[j]
  }

  lemma {:induction false} AfterSnoc(log: Log, signals: seq<Signal>, last: Signal, max: nat)
    ensures After(log, signals + [last], max) == Claimed(After(log, signals, max), last, max)
    decreases |signals|
  {
    if signals == [] {
      assert [] + [last] == [last] && [last][1..] == [];
    } else {
      assert (signals + [last])[1..] == signals[1..] + [last];
      AfterSnoc(Claimed(log, signals[0], max), signals[1..], last, max);
    }
  }

  lemma AfterNext(log: Log, signals: seq<Signal>, i: nat, max: nat)
    requires i < |signals|
    ensures After(log, signals[..i + 1], max) == Claimed(After(log, signals[..i], max), signals[i], max)
  {
    assert signals[..i + 1] == signals[..i] + [signals[i]];
    AfterSnoc(log, signals[..i], signals[i], max);
  }

  /** After every claim the log holds at most `max` entries, each once. */
  lemma {:induction false} LogIsBounded(log: Log, signals: seq<Signal>, max: nat)
    requires |log| <= max && NoRepeats(log)
    ensures |After(log, signals, max)| <= max && NoRepeats(After(log, signals, max))
    decreases |signals|
  {
    if signals != [] {
      LogIsBounded(Claimed(log, signals[0], max), signals[1..], max);
    }
  }

  // ----- how far apart two grants of one signal are -----

  /** The signals granted strictly between claims `i` and `j`. */
  function GrantedBetween(log: Log, signals: seq<Signal>, i: nat, j: nat, max: nat): set<Signal>
    requires j <= |signals|
  {
    set k | i < k < j && Granted(log, signals, k, max) :: signals[k]
  }

  /** `x` is at `at` in the log, followed only by entries of `between`. */
  predicate Recent(now: Log, x: Signal, between: set<Signal>, at: nat) {
    at < |now| && now[at] == x && forall n :: at < n < |now| ==> now[n] in between
  }

  /** Still in the log, followed by entries granted since; or enough others granted since. */
  ghost predicate Aged(now: Log, x: Signal, between: set<Signal>, max: nat) {
    |between - {x}| >= max || exists at: nat :: Recent(now, x, between, at)
  }

  lemma {:induction false} SuffixSize(now: Log, at: nat, granted: set<Signal>)
    requires at < |now| && NoRepeats(now) && forall n :: at < n < |now| ==> now[n] in granted
    ensures |granted - {now[at]}| >= |now| - 1 - at
    decreases |now| - at
  {
    if at + 1 < |now| {
      var last := now[|now| - 1];
      var rest := now[..|now| - 1];
      assert last in granted && last != now[at];
      assert forall n :: at < n < |rest| ==> rest[n] in granted - {last};
      SuffixSize(rest, at, granted - {last});
      assert rest[at] == now[at];
      assert granted - {now[at]} == (granted - {last} - {now[at]}) + {last};
    }
  }

  lemma BetweenGrows(log: Log, signals: seq<Signal>, i: nat, j: nat, max: nat)
    requires i < j < |signals|
    ensures GrantedBetween(log, signals, i, j + 1, max)
            == GrantedBetween(log, signals, i, j, max) + if Granted(log, signals, j, max) then {signals[j]} else {}
  {
    var now, later := GrantedBetween(log, signals, i, j, max), GrantedBetween(log, signals, i, j + 1, max);
    forall x
      ensures x in later <==> x in now || (Granted(log, signals, j, max) && x == signals[j])
    {
      if x in later {
        var k :| i < k < j + 1 && Granted(log, signals, k, max) && signals[k] == x;
      }
    }
  }

  lemma SetGrows(a: set<Signal>, b: set<Signal>)
    requires a <= b
    ensures |a| <= |b|
  {
    assert b == a + (b - a);
  }

  /** One more signal granted. */
  lemma AgedGrant(now: Log, x: Signal, between: set<Signal>, y: Signal, max: nat, at: nat)
    requires Recent(now, x, between, at) && y !in now && |now| <= max && NoRepeats(now)
    ensures Aged(Claimed(now, y, max), x, between + {y}, max)
  {
    var longer, later := now + [y], between + {y};
    assert Recent(longer, x, later, at);
    var next := Claimed(now, y, max);
    if |now| + 1 <= max {
      assert next == longer;
    } else if at > 0 {
      assert forall n :: 0 <= n < |next| ==> next[n] == longer[n + 1];
      assert Recent(next, x, later, at - 1);
    } else {
      SuffixSize(longer, 0, later);
    }
  }

  lemma AgedStep(now: Log, x: Signal, between: set<Signal>, y: Signal, max: nat)
    requires Aged(now, x, between, max) && |now| <= max && NoRepeats(now)
    ensures Aged(Claimed(now, y, max), x, if y in now then between else between + {y}, max)
  {
    if y !in now {
      if |between - {x}| >= max {
        SetGrows(between - {x}, between + {y} - {x});
      } else {
        var at: nat :| Recent(now, x, between, at);
        AgedGrant(now, x, between, y, max, at);
      }
    }
  }

  lemma NothingAdded(s: set<Signal>)
    ensures s + {} == s
  {
  }

  lemma {:induction false} EveryoneAges(log: Log, signals: seq<Signal>, i: nat, j: nat, max: nat)
    requires i < j <= |signals| && max > 0 && Granted(log, signals, i, max)
    requires |log| <= max && NoRepeats(log)
    ensures Aged(After(log, signals[..j], max), signals[i], GrantedBetween(log, signals, i, j, max), max)
    decreases j
  {
    hide Aged, After, NoRepeats, Claimed, GrantedBetween;
    if j == i + 1 {
      AfterNext(log, signals, i, max);
      LastIsRecent(After(log, signals[..i], max), signals[i], GrantedBetween(log, signals, i, j, max), max);
    } else {
      EveryoneAges(log, signals, i, j - 1, max);
      AfterNext(log, signals, j - 1, max);
      BetweenGrows(log, signals, i, j - 1, max);
      LogIsBounded(log, signals[..j - 1], max);
      var between := GrantedBetween(log, signals, i, j - 1, max);
      AgedStep(After(log, signals[..j - 1], max), signals[i], between, signals[j - 1], max);
      NothingAdded(between);
    }
  }

  lemma LastIsRecent(now: Log, x: Signal, between: set<Signal>, max: nat)
    requires x !in now && max > 0
    ensures Aged(Claimed(now, x, max), x, between, max)
  {
    var next := Claimed(now, x, max);
    assert Recent(next, x, between, |next| - 1);
  }

  /** Between two True answers for one signal, at least `max` distinct other signals were
      granted. */
  lemma RegrantIsFar(log: Log, signals: seq<Signal>, i: nat, j: nat, max: nat)
    requires i < j < |signals| && max > 0 && |log| <= max && NoRepeats(log)
    requires signals[i] == signals[j] && Granted(log, signals, i, max) && Granted(log, signals, j, max)
    ensures |GrantedBetween(log, signals, i, j, max) - {signals[i]}| >= max
  {
    EveryoneAges(log, signals, i, j, max);
    var now := After(log, signals[..j], max);
    assert forall at: nat :: Recent(now, signals[i], GrantedBetween(log, signals, i, j, max), at) ==> signals[i] in now;
  }

  // ----- few signals: each is granted exactly once -----

  function Signals(signals: seq<Signal>): set<Signal> {
    set x | x in signals
  }

  lemma {:induction false} LogComesFromClaims(log: Log, signals: seq<Signal>, max: nat)
    ensures forall x <- After(log, signals, max) :: x in log || x in signals
    decreases |signals|
  {
    if signals != [] {
      var next := Claimed(log, signals[0], max);
      LogComesFromClaims(next, signals[1..], max);
      assert forall x <- next :: x in log || x == signals[0];
    }
  }

  /** With at most `max` distinct signals in a run from the empty log, each is granted exactly
      once: on its first claim. */
  lemma EachGrantedOnce(signals: seq<Signal>, i: nat, max: nat)
    requires max > 0 && |Signals(signals)| <= max && i < |signals|
    ensures Granted([], signals, i, max) <==> signals[i] !in signals[..i]
  {
    LogComesFromClaims([], signals[..i], max);
    if signals[i] in signals[..i] && Granted([], signals, i, max) {
      var k := FirstClaim(signals, signals[i]);
      LogComesFromClaims([], signals[..k], max);
      assert Granted([], signals, k, max);
      RegrantIsFar([], signals, k, i, max);
      OthersAreFewer(signals, signals[i], GrantedBetween([], signals, k, i, max) - {signals[i]});
    }
  }

  lemma OthersAreFewer(signals: seq<Signal>, x: Signal, others: set<Signal>)
    requires x in signals && x !in others && others <= Signals(signals)
    ensures |others| < |Signals(signals)|
  {
    SetGrows(others + {x}, Signals(signals));
  }

  lemma {:induction false} FirstClaim(signals: seq<Signal>, x: Signal) returns (k: nat)
    requires x in signals
    ensures k < |signals| && signals[k] == x && x !in signals[..k]
    ensures forall n :: 0 <= n < |signals| && signals[n] == x ==> k <= n
  {
    if signals[0] == x {
      k := 0;
    } else {
      var n := FirstClaim(signals[1..], x);
      k := n + 1;
      assert signals[..k] == [signals[0]] + signals[1..][..n];
    }
  }

  // ----- the object -----

  class SentTelemetry {
    var sent: Log

    ghost predicate Valid()
      reads this
    {
      |sent| <= MAX_SIZE && NoRepeats(sent)
    }

    constructor ()
      ensures Valid() && sent == []
    {
      sent := [];
    }

    /** `_claim_signal`, under the lock. */
    method ClaimSignal(key: string, value: string) returns (granted: bool)
      requires Valid()
      modifies this
      ensures Valid()
      ensures granted == ((key, value) !in old(sent))
      ensures sent == Claimed(old(sent), (key, value), MAX_SIZE)
    {
      if (key, value) in sent {
        return false;
      }
      sent := sent + [(key, value)];
      if |sent| > MAX_SIZE {
        sent := sent[1..];
      }
      return true;
    }

    /** `reset_telemetry_cache` */
    method Reset()
      modifies this
      ensures Valid() && sent == []
    {
      sent := [];
    }

    /** A run of claims, in the order the lock admits them. */
    method ClaimAll(signals: seq<Signal>) returns (answers: seq<bool>)
      requires Valid()
      modifies this
      ensures Valid() && sent == After(old(sent), signals, MAX_SIZE)
      ensures |answers| == |signals|
      ensures forall i :: 0 <= i < |signals| ==> answers[i] == Granted(old(sent), signals, i, MAX_SIZE)
    {
      answers := [];
      for i := 0 to |signals|
        invariant Valid() && sent == After(old(sent), signals[..i], MAX_SIZE)
        invariant |answers| == i
        invariant forall k :: 0 <= k < i ==> answers[k] == Granted(old(sent), signals, k, MAX_SIZE)
      {
        AfterNext(old(sent), signals, i, MAX_SIZE);
        var answer := ClaimSignal(signals[i].0, signals[i].1);
        answers := answers + [answer];
      }
      assert signals[..|signals|] == signals;
    }
  }
}
