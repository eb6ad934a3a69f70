/**
 The canonical form of a registry rule, before it is hashed: slots and parameters sorted by
 name. Two rules have the same form exactly when they do the same thing, whatever the
 order of declaration.
 */
module Fingerprint {
  import opened Text

  // ----- ordering by name -----

  /** Code point order on strings. */
  predicate Before(a: string, b: string) {
    b != "" && (a == "" || a[0] < b[0] || (a[0] == b[0] && Before(a[1..], b[1..])))
  }

  /** The texts agree up to `i`, and there the first one ends or has the smaller character. */
  predicate DecidesAt(a: string, b: string, i: nat) {
    i <= |a| && i < |b| && a[..i] == b[..i] && (i == |a| || a[i] < b[i])
  }

  lemma DecidesLater(a: string, b: string, i: nat)
    requires a != "" && b != ""
    ensures DecidesAt(a, b, i + 1) <==> a[0] == b[0] && DecidesAt(a[1..], b[1..], i)
  {
    if i < |a| && i < |b| {
      var x, y := a[1..][..i], b[1..][..i];
      assert a[..i + 1] == [a[0]] + x && b[..i + 1] == [b[0]] + y;
      assert ([a[0]] + x)[0] == a[0] && ([b[0]] + y)[0] == b[0];
      assert ([a[0]] + x)[1..] == x && ([b[0]] + y)[1..] == y;
    }
  }

  lemma {:induction false} BeforeFinds(a: string, b: string) returns (i: nat)
    requires Before(a, b)
    ensures DecidesAt(a, b, i)
  {
    if a == "" || a[0] < b[0] {
      i := 0;
    } else {
      var k := BeforeFinds(a[1..], b[1..]);
      DecidesLater(a, b, k);
      i := k + 1;
    }
  }

  lemma {:induction false} DecidesBefore(a: string, b: string, i: nat)
    requires DecidesAt(a, b, i)
    ensures Before(a, b)
  {
    if i > 0 {
      DecidesLater(a, b, i - 1);
      DecidesBefore(a[1..], b[1..], i - 1);
    }
  }

  /** The smaller character decides at the first difference; a proper prefix comes first. */
  lemma BeforeDecides(a: string, b: string)
    ensures Before(a, b) <==> exists i: nat :: DecidesAt(a, b, i)
  {
    hide Before, DecidesAt;
    if Before(a, b) {
      var i := BeforeFinds(a, b);
    }
    if i: nat :| DecidesAt(a, b, i) {
      DecidesBefore(a, b, i);
    }
  }

  lemma {:induction false} BeforeIsTotal(a: string, b: string)
    ensures Before(a, b) || Before(b, a) || a == b
    ensures !(Before(a, b) && Before(b, a)) && !Before(a, a)
  {
    if a != "" {
      BeforeIrreflexive(a);
      if b != "" && a[0] == b[0] {
        BeforeIsTotal(a[1..], b[1..]);
        assert a == [a[0]] + a[1..] && b == [b[0]] + b[1..];
      }
    }
  }

  lemma {:induction false} BeforeIrreflexive(a: string)
    ensures !Before(a, a)
  {
    if a != "" {
      BeforeIrreflexive(a[1..]);
    }
  }

  lemma {:induction false} NotBeforeChains(a: string, b: string, c: string)
    requires !Before(b, a) && !Before(c, b)
    ensures !Before(c, a)
  {
    if a != "" && b != "" && c != "" && a[0] == b[0] == c[0] {
      NotBeforeChains(a[1..], b[1..], c[1..]);
    }
  }

  // ----- stable sorting -----

  /** An entry and the name it is sorted by. */
  datatype Named<T> = Named(name: string, data: T)

  function Insert<T>(x: Named<T>, sorted: seq<Named<T>>): seq<Named<T>> {
    if sorted == [] || !Before(sorted[0].name, x.name) then [x] + sorted
    else [sorted[0]] + Insert(x, sorted[1..])
  }

  /** `sorted(..., key=name)`: entries of one name keep their order. */
  function Sort<T>(s: seq<Named<T>>): seq<Named<T>> {
    if s == [] then [] else Insert(s[0], Sort(s[1..]))
  }

  ghost predicate Sorted<T>(s: seq<Named<T>>) {
    forall i, j :: 0 <= i < j < |s| ==> !Before(s[j].name, s[i].name)
  }

  /** The entries of one name, in order. */
  function ByName<T>(s: seq<Named<T>>, name: string): seq<T> {
    if s == [] then []
    else (if s[0].name == name then [s[0].data] else []) + ByName(s[1..], name)
  }

  lemma PlacedFirst<T>(x: Named<T>, s: seq<Named<T>>)
    requires Sorted(s) && (s == [] || !Before(s[0].name, x.name))
    ensures Sorted([x] + s)
  {
    hide Before;
    var r := [x] + s;
    forall j | 0 < j < |r|
      ensures !Before(r[j].name, x.name)
    {
      BeforeIrreflexive(s[0].name);
      NotBeforeChains(x.name, s[0].name, r[j].name);
    }
  }

  lemma FirstKeepsSorted<T>(first: Named<T>, rest: seq<Named<T>>)
    requires Sorted(rest) && forall y <- rest :: !Before(y.name, first.name)
    ensures Sorted([first] + rest)
  {
    hide Before;
  }

  lemma ByNameFirst<T>(first: Named<T>, rest: seq<Named<T>>, name: string)
    ensures ByName([first] + rest, name) == (if first.name == name then [first.data] else []) + ByName(rest, name)
  {
    assert ([first] + rest)[1..] == rest;
  }

  lemma {:induction false} InsertFacts<T>(x: Named<T>, s: seq<Named<T>>)
    requires Sorted(s)
    ensures Sorted(Insert(x, s))
    ensures forall y <- Insert(x, s) :: y == x || y in s
  {
    hide Before;
    if s == [] || !Before(s[0].name, x.name) {
      PlacedFirst(x, s);
    } else {
      InsertFacts(x, s[1..]);
      BeforeIsTotal(s[0].name, x.name);
      FirstKeepsSorted(s[0], Insert(x, s[1..]));
    }
  }

  lemma {:induction false} InsertByName<T>(x: Named<T>, s: seq<Named<T>>, name: string)
    ensures ByName(Insert(x, s), name) == (if x.name == name then [x.data] else []) + ByName(s, name)
  {
    hide Before, ByName;
    if s == [] || !Before(s[0].name, x.name) {
      ByNameFirst(x, s, name);
    } else {
      InsertByName(x, s[1..], name);
      BeforeIrreflexive(x.name);
      ByNameFirst(s[0], Insert(x, s[1..]), name);
      ByNameFirst(s[0], s[1..], name);
      assert s == [s[0]] + s[1..];
    }
  }

  /** Sorting is stable: it orders the names and keeps each name's entries in order. */
  lemma {:induction false} SortIsStable<T>(s: seq<Named<T>>)
    ensures Sorted(Sort(s))
    ensures forall name :: ByName(Sort(s), name) == ByName(s, name)
  {
    if s != [] {
      SortIsStable(s[1..]);
      InsertFacts(s[0], Sort(s[1..]));
      forall name
        ensures ByName(Sort(s), name) == ByName(s, name)
      {
        InsertByName(s[0], Sort(s[1..]), name);
      }
    }
  }

  ghost predicate SameByName<T>(a: seq<Named<T>>, b: seq<Named<T>>) {
    forall name :: ByName(a, name) == ByName(b, name)
  }

  lemma {:induction false} ByNameFinds<T>(s: seq<Named<T>>, x: Named<T>)
    ensures x in s ==> x.data in ByName(s, x.name)
    ensures forall d <- ByName(s, x.name) :: Named(x.name, d) in s
  {
    if s != [] {
      ByNameFinds(s[1..], x);
      assert x in s <==> x == s[0] || x in s[1..];
    }
  }

  lemma SortedHead<T>(a: seq<Named<T>>, b: seq<Named<T>>)
    requires Sorted(b) && a != [] && ByName(b, a[0].name) == ByName(a, a[0].name)
    ensures b != [] && !Before(a[0].name, b[0].name)
  {
    ByNameFinds(a, a[0]);
    ByNameFinds(b, a[0]);
    assert a[0].data in ByName(b, a[0].name);
    var at :| 0 <= at < |b| && b[at] == Named(a[0].name, a[0].data);
    BeforeIrreflexive(a[0].name);
  }

  lemma HeadByName<T>(b: seq<Named<T>>, a: seq<Named<T>>)
    requires b != [] && a == []
    ensures exists name :: ByName(a, name) != ByName(b, name)
  {
    assert ByName(a, b[0].name) != ByName(b, b[0].name);
  }

  /** Sorted lists with the same entries under every name are the same list. */
  lemma {:induction false} SortedDetermined<T>(a: seq<Named<T>>, b: seq<Named<T>>)
    requires Sorted(a) && Sorted(b) && SameByName(a, b)
    ensures a == b
    decreases |a|
  {
    if a == [] {
      if b != [] {
        HeadByName(b, a);
        assert false;
      }
    } else {
      SortedHead(a, b);
      SortedHead(b, a);
      BeforeIsTotal(a[0].name, b[0].name);
      assert ByName(a, a[0].name)[0] == a[0].data && ByName(b, a[0].name)[0] == b[0].data;
      forall name
        ensures ByName(a[1..], name) == ByName(b[1..], name)
      {
        assert ByName(a, name) == ByName(b, name);
        SameTail(if a[0].name == name then [a[0].data] else [], ByName(a[1..], name), ByName(b[1..], name));
      }
      SortedDetermined(a[1..], b[1..]);
      assert a == [a[0]] + a[1..] && b == [b[0]] + b[1..];
    }
  }

  lemma SameTail<T>(head: seq<T>, x: seq<T>, y: seq<T>)
    requires head + x == head + y
    ensures x == y
  {
    assert x == (head + x)[|head|..] && y == (head + y)[|head|..];
  }

  /** Two lists sort to the same list exactly when each name has the same entries, in the
      same order, in both. */
  lemma SortsAlikeIff<T>(a: seq<Named<T>>, b: seq<Named<T>>)
    ensures Sort(a) == Sort(b) <==> SameByName(a, b)
  {
    SortIsStable(a);
    SortIsStable(b);
    if Sort(a) == Sort(b) {
      SameEntries(a, b);
    } else if SameByName(a, b) {
      SortedDetermined(Sort(a), Sort(b));
    }
  }

  lemma SameEntries<T>(a: seq<Named<T>>, b: seq<Named<T>>)
    requires Sort(a) == Sort(b)
    ensures SameByName(a, b)
  {
    forall name
      ensures ByName(a, name) == ByName(b, name)
    {
      SortIsStable(a);
      SortIsStable(b);
      assert ByName(Sort(a), name) == ByName(Sort(b), name);
    }
  }

  predicate DistinctNames<T>(s: seq<Named<T>>) {
    forall i, j :: 0 <= i < j < |s| ==> s[i].name != s[j].name
  }

  ghost function Members<T>(s: seq<Named<T>>): iset<Named<T>> {
    iset x | x in s
  }

  lemma {:induction false} NoneByName<T>(s: seq<Named<T>>, name: string)
    requires forall i :: 0 <= i < |s| ==> s[i].name != name
    ensures ByName(s, name) == []
  {
    if s != [] {
      NoneByName(s[1..], name);
    }
  }

  lemma {:induction false} OnePerName<T>(s: seq<Named<T>>, name: string)
    requires DistinctNames(s)
    ensures |ByName(s, name)| <= 1
  {
    if s != [] {
      OnePerName(s[1..], name);
      if s[0].name == name {
        NoneByName(s[1..], name);
      }
    }
  }

  /** With distinct names only the set of entries matters, not their order. */
  lemma DistinctSortsAlikeIff<T>(a: seq<Named<T>>, b: seq<Named<T>>)
    requires DistinctNames(a) && DistinctNames(b)
    ensures Sort(a) == Sort(b) <==> Members(a) == Members(b)
  {
    SortsAlikeIff(a, b);
    if Members(a) == Members(b) {
      forall name
        ensures ByName(a, name) == ByName(b, name)
      {
        OnePerName(a, name);
        OnePerName(b, name);
        SameSingle(a, b, name);
        SameSingle(b, a, name);
      }
    } else if Sort(a) == Sort(b) {
      SameMembers(a, b);
      SameMembers(b, a);
    }
  }

  lemma SameSingle<T>(a: seq<Named<T>>, b: seq<Named<T>>, name: string)
    requires Members(a) == Members(b) && |ByName(a, name)| <= 1 && |ByName(b, name)| <= 1
    ensures ByName(a, name) != [] ==> ByName(b, name) == ByName(a, name)
  {
    if ByName(a, name) != [] {
      var x := Named(name, ByName(a, name)[0]);
      ByNameFinds(a, x);
      assert x.data in ByName(a, name);
      assert x in Members(a);
      ByNameFinds(b, x);
    }
  }

  lemma SameMembers<T>(a: seq<Named<T>>, b: seq<Named<T>>)
    requires SameByName(a, b)
    ensures forall x <- a :: x in b
  {
    forall x <- a
      ensures x in b
    {
      ByNameFinds(a, x);
      ByNameFinds(b, x);
    }
  }

  // ----- registry rules -----

  datatype Mode = Native | Sql | Lowcode
  datatype Polarity = Pass | Fail
  datatype Cardinality = One | Many
  datatype ParamType = BooleanType | NumberType | ListType | StringType | RefTable | RefColumn

  datatype Slot = Slot(name: string, family: string, position: int, cardinality: Cardinality)
  datatype Parameter<V> = Parameter(name: string, paramType: ParamType, value: V)

  /** `lifecycle` stands for everything the form leaves out: tags, status, version, owner. */
  datatype Rule<B, V, L> = Rule(mode: Mode, polarity: Option<Polarity>, body: B, slots: seq<Slot>,
                                parameters: seq<Parameter<V>>, filter: Option<string>, lifecycle: L)

  datatype Canonical<B, V> = Canonical(
    mode: Mode, polarity: Option<Polarity>, body: B,
    slots: seq<Named<(string, Cardinality)>>, parameters: seq<Named<(ParamType, V)>>, filter: Option<string>)

  /** `_normalize_slot` */
  function SlotEntries(slots: seq<Slot>): (r: seq<Named<(string, Cardinality)>>) {
    seq(|slots|, i requires 0 <= i < |slots| => Named(slots[i].name, (slots[i].family, slots[i].cardinality)))
  }

  /** `_normalize_parameter`, with the library's normalizer as `norm`. */
  function ParameterEntries<V>(ps: seq<Parameter<V>>, norm: V -> V): seq<Named<(ParamType, V)>> {
    seq(|ps|, i requires 0 <= i < |ps| => Named(ps[i].name, (ps[i].paramType, norm(ps[i].value))))
  }

  /** The data that is serialized and hashed. */
  function CanonicalForm<B, V, L>(r: Rule<B, V, L>, normBody: B -> B, norm: V -> V): Canonical<B, V> {
    Canonical(r.mode, r.polarity, normBody(r.body), Sort(SlotEntries(r.slots)),
              Sort(ParameterEntries(r.parameters, norm)), r.filter)
  }

  predicate DistinctSlots(slots: seq<Slot>) {
    forall i, j :: 0 <= i < j < |slots| ==> slots[i].name != slots[j].name
  }

  predicate DistinctParameters<V>(ps: seq<Parameter<V>>) {
    forall i, j :: 0 <= i < j < |ps| ==> ps[i].name != ps[j].name
  }

  lemma FormEntriesIff<B, V, L>(a: Rule<B, V, L>, b: Rule<B, V, L>, normBody: B -> B, norm: V -> V)
    requires DistinctSlots(a.slots) && DistinctSlots(b.slots)
    requires DistinctParameters(a.parameters) && DistinctParameters(b.parameters)
    ensures CanonicalForm(a, normBody, norm) == CanonicalForm(b, normBody, norm) <==>
            && a.mode == b.mode && a.polarity == b.polarity && a.filter == b.filter
            && normBody(a.body) == normBody(b.body)
            && Members(SlotEntries(a.slots)) == Members(SlotEntries(b.slots))
            && Members(ParameterEntries(a.parameters, norm)) == Members(ParameterEntries(b.parameters, norm))
  {
    DistinctSortsAlikeIff(SlotEntries(a.slots), SlotEntries(b.slots));
    DistinctSortsAlikeIff(ParameterEntries(a.parameters, norm), ParameterEntries(b.parameters, norm));
  }

  /** Every slot of `a` has one of the same name, family and cardinality in `b`. */
  predicate SlotsIn(a: seq<Slot>, b: seq<Slot>) {
    forall s <- a :: exists t <- b :: t.name == s.name && t.family == s.family && t.cardinality == s.cardinality
  }

  /** Every parameter of `a` has one of the same name, type and normalized value in `b`. */
  ghost predicate ParametersIn<V>(a: seq<Parameter<V>>, b: seq<Parameter<V>>, norm: V -> V) {
    forall p <- a :: exists q <- b ::
      q.name == p.name && q.paramType == p.paramType && norm(q.value) == norm(p.value)
  }

  lemma SlotMembers(a: seq<Slot>, b: seq<Slot>)
    ensures Members(SlotEntries(a)) <= Members(SlotEntries(b)) <==> SlotsIn(a, b)
  {
    var x, y := SlotEntries(a), SlotEntries(b);
    if Members(x) <= Members(y) {
      forall s <- a
        ensures exists t <- b :: t.name == s.name && t.family == s.family && t.cardinality == s.cardinality
      {
        var i :| 0 <= i < |a| && a[i] == s;
        assert x[i] in Members(x);
        var j :| 0 <= j < |b| && y[j] == x[i];
        assert b[j] in b;
      }
    }
    if SlotsIn(a, b) {
      forall e <- x
        ensures e in y
      {
        var i :| 0 <= i < |a| && x[i] == e;
        assert a[i] in a;
        var t :| t in b && t.name == a[i].name && t.family == a[i].family && t.cardinality == a[i].cardinality;
        var j :| 0 <= j < |b| && b[j] == t;
        assert y[j] == e;
      }
    }
  }

  lemma ParameterMembers<V>(a: seq<Parameter<V>>, b: seq<Parameter<V>>, norm: V -> V)
    ensures Members(ParameterEntries(a, norm)) <= Members(ParameterEntries(b, norm)) <==> ParametersIn(a, b, norm)
  {
    var x, y := ParameterEntries(a, norm), ParameterEntries(b, norm);
    if Members(x) <= Members(y) {
      forall p <- a
        ensures exists q <- b :: q.name == p.name && q.paramType == p.paramType && norm(q.value) == norm(p.value)
      {
        var i :| 0 <= i < |a| && a[i] == p;
        assert x[i] in Members(x);
        var j :| 0 <= j < |b| && y[j] == x[i];
        assert b[j] in b;
      }
    }
    if ParametersIn(a, b, norm) {
      forall e <- x
        ensures e in y
      {
        var i :| 0 <= i < |a| && x[i] == e;
        assert a[i] in a;
        var q :| q in b && q.name == a[i].name && q.paramType == a[i].paramType && norm(q.value) == norm(a[i].value);
        var j :| 0 <= j < |b| && b[j] == q;
        assert y[j] == e;
      }
    }
  }

  /** Two rules with distinct slot and parameter names have the same form exactly when mode,
      polarity, body and filter agree, the slots agree in name, family and cardinality, and the
      parameters in name, type and normalized value. Declaration order, slot positions and
      lifecycle never matter. */
  lemma SameFormIff<B, V, L>(a: Rule<B, V, L>, b: Rule<B, V, L>, normBody: B -> B, norm: V -> V)
    requires DistinctSlots(a.slots) && DistinctSlots(b.slots)
    requires DistinctParameters(a.parameters) && DistinctParameters(b.parameters)
    ensures CanonicalForm(a, normBody, norm) == CanonicalForm(b, normBody, norm) <==>
            && a.mode == b.mode && a.polarity == b.polarity && a.filter == b.filter
            && normBody(a.body) == normBody(b.body)
            && SlotsIn(a.slots, b.slots) && SlotsIn(b.slots, a.slots)
            && ParametersIn(a.parameters, b.parameters, norm) && ParametersIn(b.parameters, a.parameters, norm)
  {
    hide CanonicalForm, SlotEntries, ParameterEntries, SlotsIn, ParametersIn;
    FormEntriesIff(a, b, normBody, norm);
    SlotMembers(a.slots, b.slots);
    SlotMembers(b.slots, a.slots);
    ParameterMembers(a.parameters, b.parameters, norm);
    ParameterMembers(b.parameters, a.parameters, norm);
  }

  /** Without distinct names declaration order can show: the sort is stable. */
  lemma RepeatedNamesShowOrder<B, V, L>(r: Rule<B, V, L>, normBody: B -> B, norm: V -> V)
    ensures var a := [Slot("c", "any", 0, One), Slot("c", "text", 1, One)];
            var b := [Slot("c", "text", 0, One), Slot("c", "any", 1, One)];
            && SlotsIn(a, b) && SlotsIn(b, a)
            && CanonicalForm(r.(slots := a), normBody, norm) != CanonicalForm(r.(slots := b), normBody, norm)
  {
    var x, y := Named("c", ("any", One)), Named("c", ("text", One));
    var a := [Slot("c", "any", 0, One), Slot("c", "text", 1, One)];
    var b := [Slot("c", "text", 0, One), Slot("c", "any", 1, One)];
    assert a[0] in a && a[1] in a && b[0] in b && b[1] in b;
    assert SlotEntries(a) == [x, y] && SlotEntries(b) == [y, x];
    SortsAlikeIff([x, y], [y, x]);
    assert [x, y][1..] == [y] && [y, x][1..] == [x] && [x][1..] == [] && [y][1..] == [];
    assert ByName([x], "c") == [x.data] && ByName([y], "c") == [y.data];
    assert ByName([x, y], "c") == [x.data] + ByName([y], "c") && ByName([y, x], "c") == [y.data] + ByName([x], "c");
    assert ByName([x, y], "c") == [x.data, y.data] && ByName([y, x], "c") == [y.data, x.data];
    assert ByName([x, y], "c")[0] != ByName([y, x], "c")[0];
  }
}
