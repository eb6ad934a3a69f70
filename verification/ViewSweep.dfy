/**
 Temporary views carry their creation epoch in their name; a sweeper drops the ones that are
 too old. A view whose job may still be queued is never dropped, whatever lifetime is
 configured, because the epoch printed into the name is the epoch read back out.
 */
module ViewSweep {
  import opened Text

  // ----- decimal numbers -----

  function DigitChar(d: nat): (c: char)
    requires d < 10
    ensures IsDigit(c)
  {
    '0' + d as char
  }

  /** `str(n)` */
  function Decimal(n: nat): string {
    if n < 10 then [DigitChar(n)] else Decimal(n / 10) + [DigitChar(n % 10)]
  }

  predicate AllDigits(s: string) {
    forall c <- s :: IsDigit(c)
  }

  /** `int(s)` on digits */
  function Number(s: string): nat
    requires AllDigits(s)
  {
    if s == "" then 0
    else
      var last := s[|s| - 1];
      assert last in s;
      Number(s[..|s| - 1]) * 10 + (last - '0') as nat
  }

  /** Printing and parsing back. */
  lemma {:induction false} DecimalRoundTrip(n: nat)
    ensures Decimal(n) != "" && AllDigits(Decimal(n)) && Number(Decimal(n)) == n
  {
    if n >= 10 {
      DecimalRoundTrip(n / 10);
      var s := Decimal(n);
      assert s[..|s| - 1] == Decimal(n / 10);
    } else {
      assert Decimal(n)[..0] == "";
    }
  }

  // ----- view names -----

  predicate IsHex(c: char) {
    IsDigit(c) || 'a' <= c <= 'f'
  }

  /** The name given to a view created in second `epoch`; `id` is the start of a fresh hex id. */
  function ViewName(epoch: nat, id: string): string {
    "v_" + Decimal(epoch) + "_" + id
  }

  predicate IsId(id: string) {
    |id| == 12 && forall c <- id :: IsHex(c)
  }

  function DigitRun(s: string): (n: nat)
    ensures n <= |s| && AllDigits(s[..n])
  {
    if s != "" && IsDigit(s[0]) then
      var n := DigitRun(s[1..]);
      assert s[..n + 1] == [s[0]] + s[1..][..n];
      n + 1
    else 0
  }

  /** The pattern's `$` also accepts one trailing line feed. */
  function Body(s: string): string {
    if s != "" && s[|s| - 1] == '\n' then s[..|s| - 1] else s
  }

  /** The epoch in a view name, when the name has the sweeper's pattern. */
  function Epoch(name: string): Option<nat> {
    if !("v_" <= name) then None
    else
      var rest := name[2..];
      var n := DigitRun(rest);
      if n > 0 && n < |rest| && rest[n] == '_' && Body(rest[n + 1..]) != ""
         && (forall c <- Body(rest[n + 1..]) :: IsHex(c))
      then Some(Number(rest[..n]))
      else None
  }

  lemma {:induction false} DigitRunPrefix(d: string, rest: string)
    requires AllDigits(d) && (rest == "" || !IsDigit(rest[0]))
    ensures DigitRun(d + rest) == |d|
  {
    if d == "" {
      assert d + rest == rest;
    } else {
      assert d[0] in d && (d + rest)[1..] == d[1..] + rest;
      DigitRunPrefix(d[1..], rest);
    }
  }

  lemma NameTail(d: string, id: string)
    ensures var rest := d + ("_" + id);
            rest[|d|] == '_' && rest[..|d|] == d && rest[|d| + 1..] == id
  {
  }

  lemma IdBody(id: string)
    requires IsId(id)
    ensures Body(id) == id && Body(id) != "" && forall c <- Body(id) :: IsHex(c)
  {
    assert id[|id| - 1] in id;
  }

  /** The sweeper reads back the epoch that was written. */
  lemma NameParses(epoch: nat, id: string)
    requires IsId(id)
    ensures Epoch(ViewName(epoch, id)) == Some(epoch)
  {
    hide Decimal, DigitRun, Number, AllDigits, Body, IsHex, IsId;
    var d := Decimal(epoch);
    DecimalRoundTrip(epoch);
    DigitRunPrefix(d, "_" + id);
    NameTail(d, id);
    IdBody(id);
    assert ViewName(epoch, id) == "v_" + (d + ("_" + id));
    assert ("v_" + (d + ("_" + id)))[2..] == d + ("_" + id);
  }

  /** `\d+` printed as this number, an underscore, `[0-9a-f]+`, and at most one line feed. */
  ghost predicate IsTemporary(name: string, epoch: nat) {
    exists digits, id, end ::
      && name == "v_" + (digits + ("_" + (id + end)))
      && digits != "" && AllDigits(digits) && Number(digits) == epoch
      && id != "" && (forall c <- id :: IsHex(c)) && (end == "" || end == "\n")
  }

  lemma HexBody(id: string, end: string)
    requires id != "" && (forall c <- id :: IsHex(c)) && (end == "" || end == "\n")
    ensures Body(id + end) == id
  {
    assert id[|id| - 1] in id;
    assert end == "" ==> id + end == id;
    assert end == "\n" ==> (id + end)[..|id + end| - 1] == id;
  }

  lemma BodyEnds(s: string)
    ensures s == Body(s) + if Body(s) == s then "" else "\n"
  {
  }

  lemma TemporaryParses(digits: string, id: string, end: string)
    requires digits != "" && AllDigits(digits)
    requires id != "" && (forall c <- id :: IsHex(c)) && (end == "" || end == "\n")
    ensures Epoch("v_" + (digits + ("_" + (id + end)))) == Some(Number(digits))
  {
    hide DigitRun, Number, AllDigits, Body, IsHex;
    var rest := digits + ("_" + (id + end));
    DigitRunPrefix(digits, "_" + (id + end));
    NameTail(digits, id + end);
    HexBody(id, end);
    assert ("v_" + rest)[2..] == rest;
  }

  lemma ParsedIsTemporary(name: string)
    requires Epoch(name).Some?
    ensures IsTemporary(name, Epoch(name).value)
  {
    hide DigitRun, Number, AllDigits, Body, IsHex;
    var rest := name[2..];
    var n := DigitRun(rest);
    var tail := rest[n + 1..];
    var end := if Body(tail) == tail then "" else "\n";
    BodyEnds(tail);
    assert name == "v_" + rest && rest == rest[..n] + ("_" + tail);
    assert name == "v_" + (rest[..n] + ("_" + (Body(tail) + end)));
  }

  /** Only names of exactly this shape are read as temporary views, each with its own epoch. */
  lemma EpochIff(name: string, epoch: nat)
    ensures Epoch(name) == Some(epoch) <==> IsTemporary(name, epoch)
  {
    hide Epoch, Number, AllDigits, IsHex;
    if Epoch(name).Some? {
      ParsedIsTemporary(name);
    }
    if IsTemporary(name, epoch) {
      var digits, id, end :| name == "v_" + (digits + ("_" + (id + end))) && digits != "" && AllDigits(digits)
                             && Number(digits) == epoch && id != "" && (forall c <- id :: IsHex(c))
                             && (end == "" || end == "\n");
      TemporaryParses(digits, id, end);
    }
  }

  // ----- the sweep -----

  const MIN_VIEW_TTL: int := 900

  /** `_effective_view_ttl` */
  function EffectiveTtl(ttl: int): int {
    if ttl < MIN_VIEW_TTL then MIN_VIEW_TTL else ttl
  }

  /** The listed name is older than the lifetime, in whole seconds. */
  predicate Stale(name: string, now: int, ttl: int) {
    Epoch(name).Some? && now - Epoch(name).value > ttl
  }

  function NameIn(row: Option<string>): string {
    if row.Some? then row.value else ""
  }

  function Listed(rows: seq<Option<string>>): seq<string> {
    if rows == [] then [] else [NameIn(rows[0])] + Listed(rows[1..])
  }

  function StaleNames(names: seq<string>, now: int, ttl: int): seq<string> {
    if names == [] then []
    else (if Stale(names[0], now, ttl) then [names[0]] else []) + StaleNames(names[1..], now, ttl)
  }

  /** `sweep_stale_views`: the names whose drop is attempted. No rows are the failed listing. */
  method SweepStaleViews(listing: Option<seq<Option<string>>>, ttl: int, clock: real)
    returns (dropped: nat, attempts: seq<string>)
    ensures attempts == if listing.Some? then StaleNames(Listed(listing.value), clock.Floor, EffectiveTtl(ttl)) else []
    ensures dropped == |attempts|
  {
    hide StaleNames, Listed, StaleFrom;
    hide Epoch;
    var lifetime := EffectiveTtl(ttl);
    var now := clock.Floor;
    dropped, attempts := 0, [];
    if listing.None? {
      return;
    }
    var rows := listing.value;
    StaleFromEnds(rows, now, lifetime);
    for i := 0 to |rows|
      invariant dropped == |attempts|
      invariant StaleNames(Listed(rows), now, lifetime) == attempts + StaleFrom(rows, i, now, lifetime)
    {
      StaleFromStep(rows, i, now, lifetime);
      var name := NameIn(rows[i]);
      var epoch := Epoch(name);
      if epoch.None? {
        continue;
      }
      var age := now - epoch.value;
      if age > lifetime {
        attempts := attempts + [name];
        dropped := dropped + 1;
      }
    }
  }

  function StaleFrom(rows: seq<Option<string>>, i: nat, now: int, ttl: int): seq<string>
    requires i <= |rows|
  {
    StaleNames(Listed(rows[i..]), now, ttl)
  }

  lemma StaleFromEnds(rows: seq<Option<string>>, now: int, ttl: int)
    ensures StaleFrom(rows, 0, now, ttl) == StaleNames(Listed(rows), now, ttl)
    ensures StaleFrom(rows, |rows|, now, ttl) == []
  {
    assert rows[0..] == rows && rows[|rows|..] == [];
  }

  lemma StaleFromStep(rows: seq<Option<string>>, i: nat, now: int, ttl: int)
    requires i < |rows|
    ensures StaleFrom(rows, i, now, ttl) ==
            (if Stale(NameIn(rows[i]), now, ttl) then [NameIn(rows[i])] else []) + StaleFrom(rows, i + 1, now, ttl)
  {
    hide Stale;
    var names := Listed(rows[i..]);
    assert rows[i..][1..] == rows[i + 1..];
    assert names[1..] == Listed(rows[i + 1..]);
  }

  lemma {:induction false} AttemptsAppend(a: seq<Option<string>>, b: seq<Option<string>>, now: int, ttl: int)
    ensures StaleNames(Listed(a + b), now, ttl) == StaleNames(Listed(a), now, ttl) + StaleNames(Listed(b), now, ttl)
  {
    hide Stale;
    if a == [] {
      assert a + b == b;
    } else {
      assert (a + b)[1..] == a[1..] + b;
      AttemptsAppend(a[1..], b, now, ttl);
      ListedCons(a);
      ListedCons(a + b);
    }
  }

  lemma ListedCons(rows: seq<Option<string>>)
    requires rows != []
    ensures Listed(rows) != [] && Listed(rows)[0] == NameIn(rows[0]) && Listed(rows)[1..] == Listed(rows[1..])
  {
  }

  /** The name of a temporary view that is older than the lifetime, in whole seconds. */
  ghost predicate TooOld(name: string, now: int, ttl: int) {
    exists epoch: nat :: IsTemporary(name, epoch) && now - epoch > ttl
  }

  lemma StaleIff(name: string, now: int, ttl: int)
    ensures Stale(name, now, ttl) <==> TooOld(name, now, ttl)
  {
    hide Epoch, IsTemporary;
    if Epoch(name).Some? {
      EpochIff(name, Epoch(name).value);
    }
    if epoch: nat :| IsTemporary(name, epoch) && now - epoch > ttl {
      EpochIff(name, epoch);
    }
  }

  /** Listed rows are taken one by one, in order: a row's name is attempted exactly when it is
      the name of a temporary view that is too old, and a row without a name never is. */
  lemma AttemptsInOrder(a: seq<Option<string>>, name: string, b: seq<Option<string>>, now: int, ttl: int)
    ensures StaleNames(Listed(a + [Some(name)] + b), now, ttl) ==
            StaleNames(Listed(a), now, ttl) + (if TooOld(name, now, ttl) then [name] else [])
            + StaleNames(Listed(b), now, ttl)
    ensures StaleNames(Listed(a + [None] + b), now, ttl) ==
            StaleNames(Listed(a), now, ttl) + StaleNames(Listed(b), now, ttl)
  {
    OneRow(name, now, ttl);
    hide StaleNames, Listed, TooOld;
    AttemptsAppend(a + [Some(name)], b, now, ttl);
    AttemptsAppend(a, [Some(name)], now, ttl);
    AttemptsAppend(a + [None], b, now, ttl);
    AttemptsAppend(a, [None], now, ttl);
  }

  lemma OneRow(name: string, now: int, ttl: int)
    ensures StaleNames(Listed([Some(name)]), now, ttl) == if TooOld(name, now, ttl) then [name] else []
    ensures StaleNames(Listed([None]), now, ttl) == []
  {
    hide TooOld;
    StaleIff(name, now, ttl);
    assert Listed([Some(name)]) == [name] && Listed([None]) == [""];
    assert [name][1..] == [] && [""][1..] == [];
  }

  /** A drop is attempted for exactly the listed names that are temporary and too old; every
      other name is left alone. */
  lemma {:induction false} AttemptedIff(names: seq<string>, now: int, ttl: int, name: string)
    ensures name in StaleNames(names, now, ttl) <==> name in names && TooOld(name, now, ttl)
  {
    hide TooOld;
    if names != [] {
      StaleIff(names[0], now, ttl);
      AttemptedIff(names[1..], now, ttl, name);
      assert name in names <==> name == names[0] || name in names[1..];
    }
  }

  lemma FloorGap(t: real, now: real, ttl: int)
    ensures now <= t + ttl as real ==> now.Floor - t.Floor <= ttl
    ensures now >= t + (ttl + 1) as real ==> now.Floor - t.Floor > ttl
  {
    var late := now.Floor - t.Floor;
    if late > ttl {
      assert now >= now.Floor as real && t < (t.Floor + 1) as real;
      assert now.Floor >= t.Floor + 1 + ttl;
      assert now.Floor as real >= (t.Floor + 1) as real + ttl as real;
    } else {
      assert now < (now.Floor + 1) as real && t >= t.Floor as real;
      assert now.Floor + 1 <= t.Floor + (ttl + 1);
      assert (now.Floor + 1) as real <= t.Floor as real + (ttl + 1) as real;
    }
  }

  /** A view created at time `t` is left alone by every sweep up to the lifetime, never less
      than 900 seconds, after `t`, whatever lifetime is configured; listed and a second older
      than that, it is always attempted. In between, whole seconds decide. */
  lemma SweepSparesTheYoung(t: real, id: string, names: seq<string>, ttl: int, clock: real)
    requires t >= 0.0 && IsId(id)
    ensures var name, attempts := ViewName(t.Floor, id), StaleNames(names, clock.Floor, EffectiveTtl(ttl));
            var lifetime := if ttl > 900 then ttl else 900;
            && (name in attempts <==> name in names && clock.Floor - t.Floor > lifetime)
            && (clock <= t + lifetime as real ==> name !in attempts)
            && (name in names && clock >= t + (lifetime + 1) as real ==> name in attempts)
  {
    hide StaleNames, TooOld;
    NameParses(t.Floor, id);
    StaleIff(ViewName(t.Floor, id), clock.Floor, EffectiveTtl(ttl));
    AttemptedIff(names, clock.Floor, EffectiveTtl(ttl), ViewName(t.Floor, id));
    FloorGap(t, clock, EffectiveTtl(ttl));
  }

  // ----- the statement behind an attempt -----

  /** `^[A-Za-z0-9_]+$` */
  predicate SafePart(s: string) {
    Body(s) != "" && forall c <- Body(s) :: IsIdentChar(c)
  }

  function Quoted(s: string): string {
    "`" + s + "`"
  }

  /** `drop_view`: None when it skips the name. */
  function DropStatement(fqn: string): Option<string> {
    var parts := SplitOn(fqn, '.');
    if |parts| != 3 || !SafePart(parts[0]) || !SafePart(parts[1]) || !SafePart(parts[2]) then None
    else Some("DROP VIEW IF EXISTS " + Quoted(parts[0]) + "." + Quoted(parts[1]) + "." + Quoted(parts[2]))
  }

  lemma SafeHasNoDot(s: string)
    requires SafePart(s)
    ensures '.' !in s
  {
    assert Body(s) != s ==> s == Body(s) + "\n";
  }

  lemma ParsedIsSafe(name: string)
    requires Epoch(name).Some?
    ensures SafePart(name)
  {
    var rest := name[2..];
    var n := DigitRun(rest);
    PatternIsSafe(rest[..n], rest[n + 1..]);
    assert name == "v_" + rest[..n] + "_" + rest[n + 1..];
  }

  lemma PatternIsSafe(digits: string, tail: string)
    requires AllDigits(digits) && Body(tail) != "" && forall c <- Body(tail) :: IsHex(c)
    ensures SafePart("v_" + digits + "_" + tail)
  {
    var name := "v_" + digits + "_" + tail;
    var body := "v_" + digits + "_" + Body(tail);
    assert Body(name) == body by {
      assert name[|name| - 1] == tail[|tail| - 1];
    }
    forall c <- body
      ensures IsIdentChar(c)
    {
      assert c in "v_" || c in digits || c in "_" || c in Body(tail);
    }
  }

  /** ASCII letters, digits and underscores, at least one, and at most one line feed. */
  ghost predicate IsSafe(s: string) {
    exists body, end ::
      && s == body + end && body != "" && (end == "" || end == "\n")
      && forall c <- body :: '0' <= c <= '9' || 'A' <= c <= 'Z' || 'a' <= c <= 'z' || c == '_'
  }

  lemma SafeIff(s: string)
    ensures SafePart(s) <==> IsSafe(s)
  {
    BodyEnds(s);
    if IsSafe(s) {
      var body, end :| s == body + end && body != "" && (end == "" || end == "\n")
                       && forall c <- body :: '0' <= c <= '9' || 'A' <= c <= 'Z' || 'a' <= c <= 'z' || c == '_';
      assert body[|body| - 1] in body;
      assert Body(s) == body;
    }
  }

  lemma DropShows(a: string, b: string, c: string)
    ensures "DROP VIEW IF EXISTS " + Quoted(a) + "." + Quoted(b) + "." + Quoted(c)
            == "DROP VIEW IF EXISTS `" + a + "`.`" + b + "`.`" + c + "`"
  {
    assert "DROP VIEW IF EXISTS " + "`" == "DROP VIEW IF EXISTS `" && "`" + "." + "`" == "`.`";
  }

  /** An attempt on a parsed name becomes a DROP of exactly that view when catalog and schema
      are safe parts; the sweep counts it as dropped either way. */
  lemma AttemptDrops(catalog: string, schema: string, name: string)
    requires Epoch(name).Some? && '.' !in catalog && '.' !in schema
    ensures DropStatement(catalog + "." + schema + "." + name) ==
            if IsSafe(catalog) && IsSafe(schema)
            then Some("DROP VIEW IF EXISTS `" + catalog + "`.`" + schema + "`.`" + name + "`")
            else None
  {
    hide Epoch, SafePart, SplitOn, IsSafe;
    SafeIff(catalog);
    SafeIff(schema);
    DropShows(catalog, schema, name);
    ParsedIsSafe(name);
    SafeHasNoDot(name);
    SplitFirst(catalog, schema + "." + name, '.');
    SplitFirst(schema, name, '.');
    SplitPlain(name, '.');
    assert catalog + "." + schema + "." + name == catalog + "." + (schema + "." + name);
  }
}
