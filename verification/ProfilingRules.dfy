/**
 From a profiler check with concrete columns and values to a registry template, a column
 mapping and frozen parameter values. The split can be undone, and two checks of one
 function become the same rule exactly when their frozen values agree.
 */
module ProfilingRules {
  import opened Text
  import opened Fingerprint

  /** A JSON value as the profiler writes it. */
  datatype Value =
    | Null
    | Bool(b: bool)
    | Int(i: int)
    | Float(f: real)
    | Str(s: string)
    | List(items: seq<Value>)
    | Dict(entries: map<string, Value>)

  type Arguments = map<string, Value>

  datatype Kind =
    | Column | Columns | BooleanKind | NumberKind | ListKind | StringKind | RefTableKind | RefColumnsKind | OtherKind

  /** `family` is "" when it is not resolved yet. */
  datatype ParamDef = ParamDef(name: string, kind: Kind, family: string)

  datatype FunctionDef = FunctionDef(name: string, params: seq<ParamDef>)

  /** The native body: the function and one placeholder per column argument. */
  datatype Body = Body(function_: string, arguments: map<string, string>)

  datatype Candidate =
    Candidate(body: Body, slots: seq<Slot>, parameters: seq<Parameter<Value>>, mapping: map<string, string>)

  // ----- splitting a function's parameters -----

  predicate IsColumn(p: ParamDef) {
    p.kind.Column? || p.kind.Columns?
  }

  function TypeOf(k: Kind): ParamType {
    match k
    case BooleanKind => BooleanType
    case NumberKind => NumberType
    case ListKind => ListType
    case RefTableKind => RefTable
    case RefColumnsKind => RefColumn
    case _ => StringType
  }

  function SlotOf(p: ParamDef, position: int, family: string): Slot {
    Slot(p.name, if p.family != "" then p.family else family, position, if p.kind.Columns? then Many else One)
  }

  function Slots(params: seq<ParamDef>, position: int, family: string): seq<Slot> {
    if params == [] then []
    else if IsColumn(params[0]) then [SlotOf(params[0], position, family)] + Slots(params[1..], position + 1, family)
    else Slots(params[1..], position, family)
  }

  function Unset(params: seq<ParamDef>): seq<Parameter<Value>> {
    if params == [] then []
    else (if IsColumn(params[0]) then [] else [Parameter(params[0].name, TypeOf(params[0].kind), Null)])
         + Unset(params[1..])
  }

  /** `derive_slots_and_parameters`; `family` is the function's own slot family. */
  method DeriveSlotsAndParameters(params: seq<ParamDef>, family: string)
    returns (slots: seq<Slot>, parameters: seq<Parameter<Value>>)
    ensures slots == Slots(params, 0, family) && parameters == Unset(params)
  {
    slots, parameters := [], [];
    var position := 0;
    for i := 0 to |params|
      invariant position == |slots|
      invariant Slots(params, 0, family) == slots + Slots(params[i..], position, family)
      invariant Unset(params) == parameters + Unset(params[i..])
    {
      assert params[i..][1..] == params[i + 1..];
      if IsColumn(params[i]) {
        slots := slots + [SlotOf(params[i], position, family)];
        position := position + 1;
      } else {
        parameters := parameters + [Parameter(params[i].name, TypeOf(params[i].kind), Null)];
      }
    }
  }

  /** The parameters that are columns, or those that are not, in order. */
  function Chosen(params: seq<ParamDef>, columns: bool): seq<ParamDef> {
    if params == [] then []
    else
      (if (params[0].kind.Column? || params[0].kind.Columns?) == columns then [params[0]] else [])
      + Chosen(params[1..], columns)
  }

  /** `_PARAM_KIND_TO_TYPE` */
  const PARAM_TYPES: map<Kind, ParamType> := map[
    BooleanKind := BooleanType, NumberKind := NumberType, ListKind := ListType, StringKind := StringType,
    RefTableKind := RefTable, RefColumnsKind := RefColumn]

  lemma TypesAre(k: Kind)
    ensures TypeOf(k) == if k in PARAM_TYPES then PARAM_TYPES[k] else StringType
  {
  }

  /** A column parameter becomes a slot at its position, with its own family or the function's. */
  predicate IsSlotOf(s: Slot, p: ParamDef, position: int, family: string) {
    && s.name == p.name && s.position == position
    && s.family == (if p.family != "" then p.family else family)
    && s.cardinality == (if p.kind.Columns? then Many else One)
  }

  /** Every other parameter becomes one of its kind's type, without a value. */
  predicate IsUnset(u: Parameter<Value>, p: ParamDef) {
    u.name == p.name && u.value == Null
    && u.paramType == if p.kind in PARAM_TYPES then PARAM_TYPES[p.kind] else StringType
  }

  lemma SlotsCons(params: seq<ParamDef>, position: int, family: string)
    requires params != []
    ensures Slots(params, position, family) ==
            if IsColumn(params[0]) then [SlotOf(params[0], position, family)] + Slots(params[1..], position + 1, family)
            else Slots(params[1..], position, family)
    ensures Chosen(params, true) ==
            if IsColumn(params[0]) then [params[0]] + Chosen(params[1..], true) else Chosen(params[1..], true)
  {
    hide SlotOf;
    assert [] + Chosen(params[1..], true) == Chosen(params[1..], true);
  }

  lemma NoSlots(position: int, family: string)
    ensures Slots([], position, family) == [] && Chosen([], true) == []
  {
  }

  lemma {:induction false} SlotsAre(params: seq<ParamDef>, position: int, family: string)
    ensures |Slots(params, position, family)| == |Chosen(params, true)|
    ensures forall i :: 0 <= i < |Chosen(params, true)| ==>
              IsSlotOf(Slots(params, position, family)[i], Chosen(params, true)[i], position + i, family)
  {
    hide SlotOf, IsSlotOf, Slots, Chosen, IsColumn;
    if params == [] {
      NoSlots(position, family);
    } else {
      SlotsCons(params, position, family);
      if IsColumn(params[0]) {
        SlotIs(params[0], position, family);
        SlotsAre(params[1..], position + 1, family);
        var rest, later := Slots(params[1..], position + 1, family), Chosen(params[1..], true);
        forall i | 0 < i < |Chosen(params, true)|
          ensures IsSlotOf(Slots(params, position, family)[i], Chosen(params, true)[i], position + i, family)
        {
          assert IsSlotOf(rest[i - 1], later[i - 1], position + 1 + (i - 1), family);
        }
      } else {
        SlotsAre(params[1..], position, family);
      }
    }
  }

  lemma SlotIs(p: ParamDef, position: int, family: string)
    ensures IsSlotOf(SlotOf(p, position, family), p, position, family)
  {
  }

  lemma {:induction false} UnsetAre(params: seq<ParamDef>)
    ensures |Unset(params)| == |Chosen(params, false)|
    ensures forall i :: 0 <= i < |Chosen(params, false)| ==> IsUnset(Unset(params)[i], Chosen(params, false)[i])
  {
    if params != [] {
      hide TypeOf, IsUnset;
      UnsetAre(params[1..]);
      UnsetIs(params[0]);
    }
  }

  lemma UnsetIs(p: ParamDef)
    ensures IsUnset(Parameter(p.name, TypeOf(p.kind), Null), p)
  {
    hide TypeOf;
    TypesAre(p.kind);
  }

  lemma {:induction false} ChosenAll(params: seq<ParamDef>)
    ensures |Chosen(params, true)| + |Chosen(params, false)| == |params|
  {
    if params != [] {
      ChosenAll(params[1..]);
    }
  }

  /** Every parameter is split to its side, in order: columns become slots at dense positions, the
      others become typed parameters. */
  lemma SplitFacts(params: seq<ParamDef>, position: int, family: string)
    ensures var slots, columns := Slots(params, position, family), Chosen(params, true);
            |slots| == |columns| &&
            forall i :: 0 <= i < |slots| ==> IsSlotOf(slots[i], columns[i], position + i, family)
    ensures var unset, others := Unset(params), Chosen(params, false);
            |unset| == |others| && forall i :: 0 <= i < |unset| ==> IsUnset(unset[i], others[i])
    ensures |Slots(params, position, family)| + |Unset(params)| == |params|
  {
    hide Slots, Unset, IsSlotOf, IsUnset, Chosen;
    SlotsAre(params, position, family);
    UnsetAre(params);
    ChosenAll(params);
  }

  // ----- one argument -----

  /** `arguments.get(name)` */
  function Argument(args: Arguments, name: string): Value {
    if name in args then args[name] else Null
  }

  predicate IsName(v: Value) {
    v.Str? && v.s != ""
  }

  function Strings(vs: seq<Value>): (r: seq<string>)
    requires forall v <- vs :: v.Str?
    ensures |r| == |vs| && forall i :: 0 <= i < |vs| ==> r[i] == vs[i].s
  {
    if vs == [] then [] else [vs[0].s] + Strings(vs[1..])
  }

  /** `_mapping_value` */
  function MappingValue(cardinality: Cardinality, raw: Value): Option<string> {
    if cardinality.Many? && raw.List? && raw.items != [] && (forall v <- raw.items :: IsName(v)) then
      Some(Join(Strings(raw.items), ","))
    else if IsName(raw) then Some(raw.s)
    else None
  }

  /** The values a parameter may keep. */
  predicate Keeps(raw: Value) {
    raw.Str? || raw.Int? || raw.Float? || raw.Bool? || (raw.List? && forall v <- raw.items :: v.Str?)
  }

  /** `_freeze_parameter` */
  function Frozen(p: Parameter<Value>, raw: Value): Parameter<Value> {
    Parameter(p.name, p.paramType, if Keeps(raw) then raw else Null)
  }

  function FreezeAll(ps: seq<Parameter<Value>>, args: Arguments): (r: seq<Parameter<Value>>)
    ensures |r| == |ps|
  {
    seq(|ps|, i requires 0 <= i < |ps| => Frozen(ps[i], Argument(args, ps[i].name)))
  }

  // ----- the candidate -----

  /** Some slot has no usable column argument. */
  predicate Unmappable(slots: seq<Slot>, args: Arguments) {
    exists s <- slots :: MappingValue(s.cardinality, Argument(args, s.name)).None?
  }

  function Mapping(slots: seq<Slot>, args: Arguments): map<string, string>
    requires !Unmappable(slots, args)
  {
    map s <- slots :: s.name := MappedTo(slots, args, s.name)
  }

  /** The value the last slot of this name got. */
  function MappedTo(slots: seq<Slot>, args: Arguments, name: string): string
    requires !Unmappable(slots, args) && exists s <- slots :: s.name == name
  {
    var last := slots[|slots| - 1];
    if last.name == name then MappingValue(last.cardinality, Argument(args, name)).value
    else MappedTo(slots[..|slots| - 1], args, name)
  }

  function Placeholders(slots: seq<Slot>): map<string, string> {
    map s <- slots :: s.name := "{{" + s.name + "}}"
  }

  /** `_extract_check` */
  function ExtractCheck(check: Arguments): Option<(string, Arguments)> {
    var inner := if Argument(check, "check").Dict? then check["check"].entries else check;
    var fn := Argument(inner, "function");
    var args := if "arguments" in inner then inner["arguments"] else Dict(map[]);
    if !IsName(fn) || !args.Dict? then None else Some((fn.s, args.entries))
  }

  function FunctionNamed(registry: seq<FunctionDef>, name: string): Option<FunctionDef> {
    if registry == [] then None
    else if registry[0].name == name then Some(registry[0])
    else FunctionNamed(registry[1..], name)
  }

  /** What the rest of the application decides: the registered functions, their slot family,
      and the safety scan of one SQL text. */
  datatype Context = Context(registry: seq<FunctionDef>, family: string -> string, safe: string -> bool)

  const SQL_KEYS: set<string> := {"query", "expression", "sql_query"}

  /** `_sql_arguments_safe` */
  predicate SqlArgumentsSafe(name: string, args: Arguments, safe: string -> bool) {
    || name !in {"sql_query", "sql_expression"}
    || forall key <- SQL_KEYS :: IsName(Argument(args, key)) ==> safe(Argument(args, key).s)
  }

  function BuildFrom(fd: FunctionDef, args: Arguments, family: string): Option<Candidate> {
    var slots := Slots(fd.params, 0, family);
    if slots == [] || Unmappable(slots, args) then None
    else Some(Candidate(Body(fd.name, Placeholders(slots)), slots, FreezeAll(Unset(fd.params), args),
                        Mapping(slots, args)))
  }

  function Build(check: Arguments, ctx: Context): Option<Candidate> {
    var extracted :- ExtractCheck(check);
    var fd :- FunctionNamed(ctx.registry, extracted.0);
    if !SqlArgumentsSafe(extracted.0, extracted.1, ctx.safe) then None
    else BuildFrom(fd, extracted.1, ctx.family(extracted.0))
  }

  lemma MappingSnoc(slots: seq<Slot>, args: Arguments, s: Slot)
    requires !Unmappable(slots, args) && MappingValue(s.cardinality, Argument(args, s.name)).Some?
    ensures !Unmappable(slots + [s], args)
    ensures Mapping(slots + [s], args) ==
            Mapping(slots, args)[s.name := MappingValue(s.cardinality, Argument(args, s.name)).value]
  {
    var all := slots + [s];
    assert all[..|all| - 1] == slots && all[|all| - 1] == s;
    assert forall x :: x in all <==> x in slots || x == s;
  }

  lemma MappingIsEmpty(slots: seq<Slot>, args: Arguments)
    requires !Unmappable(slots, args)
    ensures Mapping(slots, args) == map[] <==> slots == []
  {
    if slots != [] {
      assert slots[0].name in Mapping(slots, args);
    }
  }

  lemma {:induction false} FunctionNamedHasName(registry: seq<FunctionDef>, name: string)
    ensures FunctionNamed(registry, name).Some? ==> FunctionNamed(registry, name).value.name == name
  {
    if registry != [] {
      FunctionNamedHasName(registry[1..], name);
    }
  }

  /** `build_profiling_rule` */
  method BuildProfilingRule(check: Arguments, ctx: Context) returns (r: Option<Candidate>)
    ensures r == Build(check, ctx)
  {
    var extracted := ExtractCheck(check);
    if extracted.None? {
      return None;
    }
    var name, args := extracted.value.0, extracted.value.1;
    var fd := FunctionNamed(ctx.registry, name);
    if fd.None? {
      return None;
    }
    FunctionNamedHasName(ctx.registry, name);
    if !SqlArgumentsSafe(name, args, ctx.safe) {
      return None;
    }
    var slots, parameters := DeriveSlotsAndParameters(fd.value.params, ctx.family(name));
    var mapping: map<string, string> := map[];
    for i := 0 to |slots|
      invariant !Unmappable(slots[..i], args) && mapping == Mapping(slots[..i], args)
    {
      var value := MappingValue(slots[i].cardinality, Argument(args, slots[i].name));
      if value.None? {
        assert slots[i] in slots;
        return None;
      }
      MappingSnoc(slots[..i], args, slots[i]);
      assert slots[..i + 1] == slots[..i] + [slots[i]];
      mapping := mapping[slots[i].name := value.value];
    }
    assert slots[..|slots|] == slots;
    MappingIsEmpty(slots, args);
    if mapping == map[] {
      return None;
    }
    return Some(Candidate(Body(name, Placeholders(slots)), slots, FreezeAll(parameters, args), mapping));
  }

  // ----- which checks become candidates, and which candidates -----

  /** The function and arguments of a check, nested under `check` or bare. */
  predicate HasShape(check: Arguments, name: string, args: Arguments) {
    var inner := if "check" in check && check["check"].Dict? then check["check"].entries else check;
    && "function" in inner && inner["function"] == Str(name) && name != ""
    && (if "arguments" in inner then inner["arguments"] == Dict(args) else args == map[])
  }

  /** The column argument can be mapped: a name, or for a many-column parameter a list of names. */
  predicate Maps(p: ParamDef, raw: Value) {
    || (raw.Str? && raw.s != "")
    || (p.kind.Columns? && raw.List? && raw.items != [] && forall v <- raw.items :: v.Str? && v.s != "")
  }

  /** What a mapped column argument is bound to. */
  function Bound(raw: Value): string {
    match raw
    case Str(s) => s
    case List(items) => if forall v <- items :: v.Str? then Join(Strings(items), ",") else ""
    case _ => ""
  }

  lemma ShapeIs(check: Arguments, name: string, args: Arguments)
    ensures ExtractCheck(check) == Some((name, args)) <==> HasShape(check, name, args)
  {
  }

  /** The first registered function of that name. */
  lemma {:induction false} FunctionNamedIs(registry: seq<FunctionDef>, name: string) returns (i: nat)
    ensures i <= |registry| && forall j :: 0 <= j < i ==> registry[j].name != name
    ensures i < |registry| ==> registry[i].name == name
    ensures FunctionNamed(registry, name) == if i < |registry| then Some(registry[i]) else None
  {
    if registry == [] || registry[0].name == name {
      i := 0;
    } else {
      var k := FunctionNamedIs(registry[1..], name);
      i := k + 1;
      assert forall j :: 0 < j < i ==> registry[j] == registry[1..][j - 1];
    }
  }

  /** No SQL text the two SQL checks carry fails the safety scan. */
  predicate NoUnsafeSql(name: string, args: Arguments, safe: string -> bool) {
    name == "sql_query" || name == "sql_expression" ==>
      && ("query" in args && args["query"].Str? && args["query"].s != "" ==> safe(args["query"].s))
      && ("expression" in args && args["expression"].Str? && args["expression"].s != "" ==> safe(args["expression"].s))
      && ("sql_query" in args && args["sql_query"].Str? && args["sql_query"].s != "" ==> safe(args["sql_query"].s))
  }

  lemma SafetyIs(name: string, args: Arguments, safe: string -> bool)
    ensures SqlArgumentsSafe(name, args, safe) <==> NoUnsafeSql(name, args, safe)
  {
    assert SQL_KEYS == {"query", "expression", "sql_query"};
  }

  /** The check names the registered function at `i`, the first of its name, carries no unsafe SQL,
      and gives every column parameter, of at least one, a usable argument. */
  predicate Suits(check: Arguments, ctx: Context, name: string, args: Arguments, i: nat) {
    && HasShape(check, name, args)
    && i < |ctx.registry| && ctx.registry[i].name == name
    && (forall j :: 0 <= j < i ==> ctx.registry[j].name != name)
    && NoUnsafeSql(name, args, ctx.safe)
    && Chosen(ctx.registry[i].params, true) != []
    && forall p <- Chosen(ctx.registry[i].params, true) :: Maps(p, Argument(args, p.name))
  }

  lemma UnmappableIff(params: seq<ParamDef>, args: Arguments, family: string)
    ensures Unmappable(Slots(params, 0, family), args)
            <==> exists p <- Chosen(params, true) :: !Maps(p, Argument(args, p.name))
  {
    hide Maps, MappingValue, Bound, Slots, Chosen;
    SplitFacts(params, 0, family);
    var slots, columns := Slots(params, 0, family), Chosen(params, true);
    forall i | 0 <= i < |slots|
      ensures MappingValue(slots[i].cardinality, Argument(args, slots[i].name)).None?
              <==> !Maps(columns[i], Argument(args, columns[i].name))
    {
      CardinalityMaps(slots[i], columns[i], Argument(args, columns[i].name));
    }
    if exists p <- columns :: !Maps(p, Argument(args, p.name)) {
      var i :| 0 <= i < |columns| && !Maps(columns[i], Argument(args, columns[i].name));
      assert slots[i] in slots;
    }
    if Unmappable(slots, args) {
      var i :| 0 <= i < |slots| && MappingValue(slots[i].cardinality, Argument(args, slots[i].name)).None?;
      assert columns[i] in columns;
    }
  }

  lemma CardinalityMaps(s: Slot, p: ParamDef, raw: Value)
    requires s.cardinality == if p.kind.Columns? then Many else One
    ensures MappingValue(s.cardinality, raw) == if Maps(p, raw) then Some(Bound(raw)) else None
  {
  }

  lemma BuildSuits(check: Arguments, ctx: Context, name: string, args: Arguments, i: nat)
    requires HasShape(check, name, args) && i < |ctx.registry| && ctx.registry[i].name == name
    requires forall j :: 0 <= j < i ==> ctx.registry[j].name != name
    ensures Build(check, ctx) ==
            if Suits(check, ctx, name, args, i) then BuildFrom(ctx.registry[i], args, ctx.family(name)) else None
    ensures Suits(check, ctx, name, args, i) ==> BuildFrom(ctx.registry[i], args, ctx.family(name)).Some?
  {
    hide HasShape, ExtractCheck, Maps, Slots, Chosen, Unmappable, Placeholders, FreezeAll, Mapping, SqlArgumentsSafe,
         NoUnsafeSql, FunctionNamed;
    ShapeIs(check, name, args);
    var k := FunctionNamedIs(ctx.registry, name);
    SafetyIs(name, args, ctx.safe);
    UnmappableIff(ctx.registry[i].params, args, ctx.family(name));
    SplitFacts(ctx.registry[i].params, 0, ctx.family(name));
    assert k == i;
  }

  /** A check becomes a candidate exactly when it suits some registered function. */
  lemma BuildsIff(check: Arguments, ctx: Context)
    ensures Build(check, ctx).Some? <==> exists name, args, i :: Suits(check, ctx, name, args, i)
  {
    hide HasShape, ExtractCheck, BuildFrom, FunctionNamed;
    if Build(check, ctx).Some? {
      var (name, args) := ExtractCheck(check).value;
      ShapeIs(check, name, args);
      var i := FunctionNamedIs(ctx.registry, name);
      BuildSuits(check, ctx, name, args, i);
    }
    if name, args, i :| Suits(check, ctx, name, args, i) {
      BuildSuits(check, ctx, name, args, i);
    }
  }

  /** The value frozen onto a parameter: a scalar or a list of strings, anything else is dropped. */
  function FrozenValue(raw: Value): Value {
    match raw
    case Str(_) => raw
    case Int(_) => raw
    case Float(_) => raw
    case Bool(_) => raw
    case List(items) => if forall v <- items :: v.Str? then raw else Null
    case _ => Null
  }

  /** A parameter of its kind's type, with the argument of its name frozen onto it. */
  predicate IsFrozen(f: Parameter<Value>, p: ParamDef, args: Arguments) {
    && f.name == p.name && f.paramType == (if p.kind in PARAM_TYPES then PARAM_TYPES[p.kind] else StringType)
    && f.value == FrozenValue(Argument(args, p.name))
  }

  /** The candidate: the function's name, one placeholder per column, the column's argument bound
      to it, and the other arguments frozen onto the parameters. */
  lemma CandidateIs(check: Arguments, ctx: Context, name: string, args: Arguments, i: nat)
    requires Suits(check, ctx, name, args, i)
    ensures Build(check, ctx).Some?
    ensures var c, fd := Build(check, ctx).value, ctx.registry[i];
            var columns, others := Chosen(fd.params, true), Chosen(fd.params, false);
            && c.body.function_ == name
            && |c.slots| == |columns|
            && (forall k :: 0 <= k < |columns| ==> IsSlotOf(c.slots[k], columns[k], k, ctx.family(name)))
            && c.body.arguments.Keys == c.mapping.Keys == (set p <- columns :: p.name)
            && (forall p <- columns ::
                  && c.body.arguments[p.name] == "{{" + p.name + "}}"
                  && Maps(p, Argument(args, p.name)) && c.mapping[p.name] == Bound(Argument(args, p.name)))
            && |c.parameters| == |others|
            && forall k :: 0 <= k < |others| ==> IsFrozen(c.parameters[k], others[k], args)
  {
    hide HasShape, Slots, Chosen, Unset, MappingValue, Maps, Bound, MappedTo, NoUnsafeSql, IsSlotOf, IsUnset, IsFrozen,
         Build, FreezeAll, Placeholders, Mapping, Unmappable;
    var fd, family := ctx.registry[i], ctx.family(name);
    BuildSuits(check, ctx, name, args, i);
    SplitFacts(fd.params, 0, family);
    ColumnsBound(Slots(fd.params, 0, family), Chosen(fd.params, true), args, family);
    FrozenIs(Unset(fd.params), Chosen(fd.params, false), args);
  }

  lemma SlotNames(slots: seq<Slot>, columns: seq<ParamDef>)
    requires |slots| == |columns| && forall i :: 0 <= i < |slots| ==> slots[i].name == columns[i].name
    ensures (set s <- slots :: s.name) == set p <- columns :: p.name
  {
    var a, b := set s <- slots :: s.name, set p <- columns :: p.name;
    forall i | 0 <= i < |slots|
      ensures slots[i].name in a && columns[i].name in b
    {
      assert slots[i] in slots && columns[i] in columns;
    }
    assert forall s <- slots :: s.name in b;
    assert forall p <- columns :: p.name in a;
  }

  lemma FrozenIs(unset: seq<Parameter<Value>>, others: seq<ParamDef>, args: Arguments)
    requires |unset| == |others| && forall k :: 0 <= k < |unset| ==> IsUnset(unset[k], others[k])
    ensures forall k :: 0 <= k < |others| ==> IsFrozen(FreezeAll(unset, args)[k], others[k], args)
  {
  }

  lemma PlaceholdersAre(slots: seq<Slot>)
    ensures Placeholders(slots).Keys == set s <- slots :: s.name
    ensures forall n <- Placeholders(slots).Keys :: Placeholders(slots)[n] == "{{" + n + "}}"
  {
  }

  lemma MappingIs(slots: seq<Slot>, args: Arguments)
    requires !Unmappable(slots, args)
    ensures Mapping(slots, args).Keys == set s <- slots :: s.name
    ensures forall n <- Mapping(slots, args).Keys :: Mapping(slots, args)[n] == MappedTo(slots, args, n)
  {
    hide MappedTo;
  }

  lemma ColumnsBound(slots: seq<Slot>, columns: seq<ParamDef>, args: Arguments, family: string)
    requires |slots| == |columns| && !Unmappable(slots, args)
    requires forall i :: 0 <= i < |slots| ==> IsSlotOf(slots[i], columns[i], i, family)
    requires forall p <- columns :: Maps(p, Argument(args, p.name))
    ensures Placeholders(slots).Keys == Mapping(slots, args).Keys == set p <- columns :: p.name
    ensures forall p <- columns :: Placeholders(slots)[p.name] == "{{" + p.name + "}}"
    ensures forall p <- columns :: Mapping(slots, args)[p.name] == Bound(Argument(args, p.name))
  {
    hide Maps, Bound, MappedTo, Unmappable, Placeholders, Mapping, Argument;
    SlotNames(slots, columns);
    PlaceholdersAre(slots);
    MappingIs(slots, args);
    forall p <- columns
      ensures p.name in Placeholders(slots) && Placeholders(slots)[p.name] == "{{" + p.name + "}}"
      ensures p.name in Mapping(slots, args) && Mapping(slots, args)[p.name] == Bound(Argument(args, p.name))
    {
      assert p.name in (set q <- columns :: q.name);
      MappedIs(slots, columns, args, p.name);
    }
  }

  /** Whichever slot of the name is the last, its value is the name's argument. */
  lemma {:induction false} MappedIs(slots: seq<Slot>, columns: seq<ParamDef>, args: Arguments, name: string)
    requires |slots| == |columns| && !Unmappable(slots, args) && exists s <- slots :: s.name == name
    requires forall i :: 0 <= i < |slots| ==>
               slots[i].name == columns[i].name &&
               slots[i].cardinality == if columns[i].kind.Columns? then Many else One
    requires forall p <- columns :: Maps(p, Argument(args, p.name))
    ensures MappedTo(slots, args, name) == Bound(Argument(args, name))
  {
    hide Maps, MappingValue, Bound;
    var n := |slots| - 1;
    if slots[n].name == name {
      assert slots[n] in slots && columns[n] in columns;
      CardinalityMaps(slots[n], columns[n], Argument(args, name));
    } else {
      MappedIs(slots[..n], columns[..n], args, name);
    }
  }

  // ----- undoing the split -----

  /** A slot's argument put back from the mapping: a list for a many-column slot. */
  function RestoredColumn(slot: Slot, mapped: string): Value {
    if slot.cardinality.Many? then List(AsValues(SplitOn(mapped, ','))) else Str(mapped)
  }

  function AsValues(ss: seq<string>): (r: seq<Value>)
    ensures |r| == |ss| && forall i :: 0 <= i < |ss| ==> r[i] == Str(ss[i])
  {
    if ss == [] then [] else [Str(ss[0])] + AsValues(ss[1..])
  }

  /** Splitting undoes joining exactly when no name holds a comma. */
  lemma {:induction false} JoinedSplitsIff(names: seq<string>)
    requires names != []
    ensures SplitOn(Join(names, ","), ',') == names <==> forall n <- names :: ',' !in n
  {
    if forall n <- names :: ',' !in n {
      JoinedSplits(names);
    }
  }

  lemma {:induction false} JoinedSplits(names: seq<string>)
    requires names != [] && forall n <- names :: ',' !in n
    ensures SplitOn(Join(names, ","), ',') == names
  {
    assert names[0] in names;
    if |names| == 1 {
      SplitPlain(names[0], ',');
    } else {
      SplitFirst(names[0], Join(names[1..], ","), ',');
      JoinedSplits(names[1..]);
    }
  }

  /** A column argument comes back exactly when it is one name in a single-column slot, or a
      list of comma-free names in a many-column slot. */
  lemma ColumnComesBackIff(slot: Slot, raw: Value)
    requires MappingValue(slot.cardinality, raw).Some?
    ensures RestoredColumn(slot, MappingValue(slot.cardinality, raw).value) == raw <==>
            (slot.cardinality.Many? ==> raw.List? && forall v <- raw.items :: ',' !in v.s)
  {
    if slot.cardinality.Many? && raw.List? {
      var names := Strings(raw.items);
      JoinedSplitsIff(names);
      ListMatches(raw.items, SplitOn(Join(names, ","), ','));
    }
  }

  lemma ListMatches(items: seq<Value>, parts: seq<string>)
    requires forall v <- items :: v.Str?
    ensures AsValues(parts) == items <==> parts == Strings(items)
    ensures (forall n <- Strings(items) :: ',' !in n) <==> forall v <- items :: ',' !in v.s
  {
    var names := Strings(items);
    if AsValues(parts) == items {
      assert forall i :: 0 <= i < |parts| ==> AsValues(parts)[i] == Str(parts[i]);
      assert parts == names;
    }
    if parts == names {
      assert forall i :: 0 <= i < |parts| ==> AsValues(parts)[i] == items[i];
      assert AsValues(parts) == items;
    }
    forall v <- items | forall n <- names :: ',' !in n
      ensures ',' !in v.s
    {
      var i :| 0 <= i < |items| && items[i] == v;
      assert names[i] in names;
    }
    forall n <- names | forall v <- items :: ',' !in v.s
      ensures ',' !in n
    {
      var i :| 0 <= i < |names| && names[i] == n;
      assert items[i] in items;
    }
  }

  /** A parameter's value comes back exactly when it is in the allowed union, or missing. */
  lemma ParameterComesBackIff(p: Parameter<Value>, raw: Value)
    ensures Frozen(p, raw).value == raw <==> Keeps(raw) || raw == Null
  {
  }

  predicate DistinctParams(params: seq<ParamDef>) {
    forall i, j :: 0 <= i < j < |params| ==> params[i].name != params[j].name
  }

  /** The argument of one name, put back from the candidate. */
  function Restored(c: Candidate, name: string): Value
    requires forall s <- c.slots :: s.name in c.mapping
  {
    RestoredIn(c.slots, c.parameters, c.mapping, name)
  }

  function RestoredIn(slots: seq<Slot>, parameters: seq<Parameter<Value>>, mapping: map<string, string>,
                      name: string): Value
    requires forall s <- slots :: s.name in mapping
    decreases |slots| + |parameters|
  {
    if slots != [] then
      if slots[0].name == name then RestoredColumn(slots[0], mapping[name])
      else RestoredIn(slots[1..], parameters, mapping, name)
    else if parameters != [] then
      if parameters[0].name == name then parameters[0].value
      else RestoredIn([], parameters[1..], mapping, name)
    else Null
  }

  /** The raw arguments that survive the split. */
  predicate Survives(p: ParamDef, raw: Value) {
    match p.kind
    case Column => true
    case Columns => raw.List? && forall v <- raw.items :: v.Str? && ',' !in v.s
    case _ => Keeps(raw) || raw == Null
  }

  lemma {:induction false} SlotAt(params: seq<ParamDef>, k: nat, position: int, family: string) returns (i: nat)
    requires k < |params| && IsColumn(params[k])
    ensures i < |Slots(params, position, family)|
    ensures Slots(params, position, family)[i].name == params[k].name
    ensures Slots(params, position, family)[i].cardinality.Many? <==> params[k].kind.Columns?
    decreases k
  {
    if k == 0 {
      i := 0;
    } else {
      var n := if IsColumn(params[0]) then 1 else 0;
      var j := SlotAt(params[1..], k - 1, position + n, family);
      i := j + n;
    }
  }

  lemma {:induction false} UnsetAt(params: seq<ParamDef>, k: nat) returns (i: nat)
    requires k < |params| && !IsColumn(params[k])
    ensures i < |Unset(params)| && Unset(params)[i].name == params[k].name
    decreases k
  {
    if k == 0 {
      i := 0;
    } else {
      var j := UnsetAt(params[1..], k - 1);
      i := j + if IsColumn(params[0]) then 0 else 1;
    }
  }

  lemma {:induction false} ChosenFacts(params: seq<ParamDef>, columns: bool)
    requires DistinctParams(params)
    ensures forall i, j :: 0 <= i < j < |Chosen(params, columns)| ==>
              Chosen(params, columns)[i].name != Chosen(params, columns)[j].name
    ensures forall p <- Chosen(params, columns) :: p in params && IsColumn(p) == columns
  {
    if params != [] {
      var rest := params[1..];
      assert forall i :: 0 <= i < |rest| ==> rest[i] == params[i + 1];
      ChosenFacts(rest, columns);
      var chosen, later := Chosen(params, columns), Chosen(rest, columns);
      var n := if IsColumn(params[0]) == columns then 1 else 0;
      forall i, j | 0 <= i < j < |chosen|
        ensures chosen[i].name != chosen[j].name
      {
        assert chosen[j] == later[j - n] && (i >= n ==> chosen[i] == later[i - n]);
        assert later[j - n] in rest;
      }
    }
  }

  lemma {:induction false} RestoredSlot(slots: seq<Slot>, parameters: seq<Parameter<Value>>,
                                        mapping: map<string, string>, i: nat)
    requires (forall s <- slots :: s.name in mapping) && i < |slots| && DistinctSlots(slots)
    ensures RestoredIn(slots, parameters, mapping, slots[i].name) == RestoredColumn(slots[i], mapping[slots[i].name])
    decreases |slots|
  {
    if i > 0 {
      RestoredSlot(slots[1..], parameters, mapping, i - 1);
    }
  }

  lemma {:induction false} RestoredParameter(slots: seq<Slot>, parameters: seq<Parameter<Value>>,
                                             mapping: map<string, string>, i: nat)
    requires (forall s <- slots :: s.name in mapping) && i < |parameters| && DistinctParameters(parameters)
    requires forall s <- slots :: s.name != parameters[i].name
    ensures RestoredIn(slots, parameters, mapping, parameters[i].name) == parameters[i].value
    decreases |slots| + |parameters|
  {
    if slots != [] {
      RestoredParameter(slots[1..], parameters, mapping, i);
    } else if i > 0 {
      RestoredParameter([], parameters[1..], mapping, i - 1);
    }
  }

  lemma {:induction false} MappedAt(slots: seq<Slot>, args: Arguments, i: nat)
    requires !Unmappable(slots, args) && DistinctSlots(slots) && i < |slots|
    ensures Mapping(slots, args)[slots[i].name]
            == MappingValue(slots[i].cardinality, Argument(args, slots[i].name)).value
    decreases |slots|
  {
    assert slots[i] in slots;
    if i < |slots| - 1 {
      MappedAt(slots[..|slots| - 1], args, i);
    }
  }

  lemma MappedNames(slots: seq<Slot>, args: Arguments)
    requires !Unmappable(slots, args)
    ensures forall s <- slots :: s.name in Mapping(slots, args)
  {
  }

  lemma DerivedNames(params: seq<ParamDef>, family: string)
    requires DistinctParams(params)
    ensures DistinctSlots(Slots(params, 0, family)) && DistinctParameters(Unset(params))
    ensures forall s <- Slots(params, 0, family), p <- Unset(params) :: s.name != p.name
  {
    SplitFacts(params, 0, family);
    ChosenFacts(params, true);
    ChosenFacts(params, false);
    var columns, others := Chosen(params, true), Chosen(params, false);
    forall s <- Slots(params, 0, family), p <- Unset(params)
      ensures s.name != p.name
    {
      var i :| 0 <= i < |Slots(params, 0, family)| && Slots(params, 0, family)[i] == s;
      var j :| 0 <= j < |Unset(params)| && Unset(params)[j] == p;
      assert columns[i] in columns && others[j] in others;
    }
  }

  /** Whatever the check: an argument of the function is given back by the candidate exactly
      when it is of the kind that survives; every other argument changes. */
  lemma SplitCanBeUndone(fd: FunctionDef, args: Arguments, family: string, k: nat)
    requires DistinctParams(fd.params) && BuildFrom(fd, args, family).Some? && k < |fd.params|
    ensures var c := BuildFrom(fd, args, family).value;
            && (forall s <- c.slots :: s.name in c.mapping)
            && (Restored(c, fd.params[k].name) == Argument(args, fd.params[k].name)
                <==> Survives(fd.params[k], Argument(args, fd.params[k].name)))
  {
    hide Slots, Unset, RestoredIn, MappingValue, SplitOn, Mapping;
    var p := fd.params[k];
    var c, slots, raw := BuildFrom(fd, args, family).value, Slots(fd.params, 0, family), Argument(args, p.name);
    DerivedNames(fd.params, family);
    MappedNames(slots, args);
    if IsColumn(p) {
      var i := SlotAt(fd.params, k, 0, family);
      RestoredSlot(slots, c.parameters, c.mapping, i);
      MappedAt(slots, args, i);
      assert slots[i] in slots;
      ColumnComesBackIff(slots[i], raw);
    } else {
      var i := UnsetAt(fd.params, k);
      assert forall s <- slots :: s.name != Unset(fd.params)[i].name;
      RestoredParameter(slots, c.parameters, c.mapping, i);
      ParameterComesBackIff(Unset(fd.params)[i], raw);
    }
  }

  // ----- one rule for many checks -----

  /** The registry rule a candidate is stored as. */
  function RuleOf(c: Candidate): Rule<Body, Value, ()> {
    Rule(Native, None, c.body, c.slots, c.parameters, None, ())
  }

  /** Two checks of one function become the same rule, whatever their columns, exactly when
      their frozen parameter values agree after normalization. */
  lemma SameRuleIff(fd: FunctionDef, a: Arguments, b: Arguments, family: string,
                    normBody: Body -> Body, norm: Value -> Value)
    requires DistinctParams(fd.params)
    requires BuildFrom(fd, a, family).Some? && BuildFrom(fd, b, family).Some?
    ensures var x, y := BuildFrom(fd, a, family).value, BuildFrom(fd, b, family).value;
            && RuleOf(x).mode == Native && RuleOf(x).polarity == None && RuleOf(x).filter == None
            && (CanonicalForm(RuleOf(x), normBody, norm) == CanonicalForm(RuleOf(y), normBody, norm) <==>
                forall i :: 0 <= i < |Unset(fd.params)| ==> norm(x.parameters[i].value) == norm(y.parameters[i].value))
  {
    var x, y := BuildFrom(fd, a, family).value, BuildFrom(fd, b, family).value;
    DerivedNames(fd.params, family);
    FormEntriesIff(RuleOf(x), RuleOf(y), normBody, norm);
    AlignedEntriesIff(x.parameters, y.parameters, norm);
  }

  lemma AlignedEntriesIff(xs: seq<Parameter<Value>>, ys: seq<Parameter<Value>>, norm: Value -> Value)
    requires |xs| == |ys| && DistinctParameters(xs)
    requires forall i :: 0 <= i < |xs| ==> xs[i].name == ys[i].name && xs[i].paramType == ys[i].paramType
    ensures Members(ParameterEntries(xs, norm)) == Members(ParameterEntries(ys, norm)) <==>
            forall i :: 0 <= i < |xs| ==> norm(xs[i].value) == norm(ys[i].value)
  {
    var a, b := ParameterEntries(xs, norm), ParameterEntries(ys, norm);
    if forall i :: 0 <= i < |xs| ==> norm(xs[i].value) == norm(ys[i].value) {
      assert a == b;
    }
    if Members(a) == Members(b) {
      forall i | 0 <= i < |xs|
        ensures norm(xs[i].value) == norm(ys[i].value)
      {
        assert a[i] in Members(a);
        var j :| 0 <= j < |b| && b[j] == a[i];
        assert b[j].name == xs[j].name;
      }
    }
  }
}
