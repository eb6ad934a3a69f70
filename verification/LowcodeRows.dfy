/**
 The low-code row compiler: one condition row to a fragment of SQL text, and the
 row stack to one predicate. Emitted text is built from lexemes; `Render` of the
 lexemes is the exact text.
 */
module LowcodeRows {
  import opened Text
  import opened SqlText

  // ----- the AST -----

  /** The comparison operators of the row vocabulary. */
  type RowComparison = c: Comparison | c != Diamond witness Eq

  /** The operator vocabulary, one constructor per operator name, grouped by the text it gives. */
  datatype CompareOp = Cmp(c: RowComparison) | Equals | NotEquals | Before | After | OnOrBefore | OnOrAfter
  datatype RangeOp = Between | LengthBetween | In | NotIn
  datatype NullOp = IsNull | IsNotNull | IsAValid | IsNotAValid
  datatype CallOp = Contains | DoesNotContain | StartsWith | EndsWith
  datatype RegexOp = MatchesRegex | DoesNotMatchRegex | OnlyDigits | IsUuid | IsIpv4
  datatype LengthOp = HasLength | IsLongerThan | IsShorterThan | IsNotEmpty | IsEmpty
  datatype ShapeOp = HasOuterSpace | HasNoOuterSpace | IsUppercase | IsLowercase | IsWholeNumber
  datatype ConstantOp = IsTrue | IsFalse | IsPositive | IsNegative | IsNonNegative | IsMultipleOf
  datatype TimeOp = IsInLast | IsInFuture | IsInPast | IsToday

  datatype Operator =
    | Compares(compare: CompareOp)
    | Ranges(range: RangeOp)
    | Nulls(nulls: NullOp)
    | Calls(call: CallOp)
    | Regexes(regex: RegexOp)
    | Lengths(length: LengthOp)
    | Shapes(shape: ShapeOp)
    | Constants(constant: ConstantOp)
    | Times(time: TimeOp)
    | Sentiment(positive: bool)
    | PassesLuhn
    | Unknown        // any other name

  datatype Aggregate =
    | Count | CountDistinct | ApproxCountDistinct | NullRate
    | Sum | Avg | Min | Max | Stddev | StddevSamp | Variance | VarSamp | Median
    | Percentile | PercentileApprox
    | BoolAnd | BoolOr | AnyValue | Mode
    | UnknownAggregate

  /** `column` is "" when it is missing; `param` is the printed number. */
  datatype AggSpec = AggSpec(aggregate: Aggregate, column: string, param: Option<string>)

  /** A JSON operand. Numbers carry their printed text, lists and objects their `str()` text.
      An object may be a column reference (`column` not ""), an interval, or an aggregate. */
  datatype Value =
    | Null
    | Bool(b: bool)
    | Num(text: string)
    | Text(s: string)
    | List(items: seq<Value>, repr: string)
    | Object(column: string, number: Option<string>, unit: Option<string>,
             aggregate: Option<AggSpec>, repr: string)

  /** One entry of the row stack; `combinator` is "" when it is missing. */
  datatype Row =
    | NotAnObject
    | Single(column: string, operator: Operator, value: Value, combinator: string)
    | Aggregated(left: AggSpec, operator: Operator, value: Value, combinator: string)

  // ----- pieces of text -----

  type Lexemes = seq<Lexeme>

  /** `a` and `b` with one space between. */
  function Sp(a: Lexemes, b: Lexemes): Lexemes {
    a + [Space] + b
  }

  function Brackets(a: Lexemes): Lexemes {
    [Punct('(')] + a + [Punct(')')]
  }

  function Call(f: string, args: Lexemes): Lexemes {
    [Word(f)] + Brackets(args)
  }

  function Comma(a: Lexemes, b: Lexemes): Lexemes {
    a + [Punct(',')] + ([Space] + b)
  }

  function Infix(a: Lexemes, op: Lexeme, b: Lexemes): Lexemes {
    Sp(Sp(a, [op]), b)
  }

  lemma SpText(a: Lexemes, b: Lexemes)
    ensures Render(Sp(a, b)) == Render(a) + " " + Render(b)
  {
    RenderAppend(a + [Space], b);
    RenderAppend(a, [Space]);
    RenderOne(Space);
  }

  lemma SpNotEmpty(a: Lexemes, b: Lexemes)
    ensures Sp(a, b) != []
  {
    assert Sp(a, b)[|a|] == Space;
  }

  lemma InfixText(a: Lexemes, k: Keyword, b: Lexemes)
    ensures Render(Infix(a, Key(k), b)) == Render(a) + (" " + Spelling(k) + " ") + Render(b)
  {
    hide Render, Sp, Spelling;
    SpText(a, [Key(k)]);
    SpText(Sp(a, [Key(k)]), b);
    RenderOne(Key(k));
  }

  lemma BracketsText(ls: Lexemes)
    ensures Render(Brackets(ls)) == "(" + Render(ls) + ")"
  {
    RenderOne(Punct('('));
    RenderOne(Punct(')'));
    RenderAppend([Punct('(')] + ls, [Punct(')')]);
    RenderAppend([Punct('(')], ls);
  }

  lemma CallText(f: string, args: Lexemes)
    ensures Render(Call(f, args)) == f + ("(" + Render(args) + ")")
  {
    hide Render, Brackets;
    BracketsText(args);
    RenderAppend([Word(f)], Brackets(args));
    RenderOne(Word(f));
  }

  lemma CommaText(a: Lexemes, b: Lexemes)
    ensures Render(Comma(a, b)) == Render(a) + "," + (" " + Render(b))
  {
    hide Render;
    RenderAppend(a + [Punct(',')], [Space] + b);
    RenderAppend(a, [Punct(',')]);
    RenderAppend([Space], b);
    RenderOne(Punct(','));
    RenderOne(Space);
  }

  // ----- references and operands -----

  predicate ValidPart(p: string) {
    // the pattern's `$` also accepts one trailing line feed
    var body := if p != "" && p[|p| - 1] == '\n' then p[..|p| - 1] else p;
    body != "" && |p| <= 255 && forall c <- body :: c != '`' && c != '\\' && c >= ' ' && c != '\U{7F}'
  }

  function QuoteParts(parts: seq<string>): Lexemes
    requires parts != []
  {
    if |parts| == 1 then [Quoted(parts[0])]
    else [Quoted(parts[0]), Word(".")] + QuoteParts(parts[1..])
  }

  /** `_quote_ident_path`; None is the ValueError. */
  function QuotePath(path: string): Option<Lexemes> {
    var parts := SplitOn(path, '.');
    if forall p <- parts :: ValidPart(p) then Some(QuoteParts(parts)) else None
  }

  const INPUT_VIEW: string := "input_view"

  /** `_ref` */
  function Ref(column: string, qualify: bool): Option<Lexemes> {
    if '.' in column then QuotePath(column)
    else Some(if qualify then [Slot(INPUT_VIEW), Word("."), Slot(column)] else [Slot(column)])
  }

  /** `_quote` */
  function Literal(v: Value): Lexemes {
    match v
    case Bool(b) => [Word(if b then "TRUE" else "FALSE")]
    case Num(text) => [Word(text)]
    case Null => [Word("NULL")]
    case Text(s) => [Str(s)]
    case List(_, repr) => [Str(repr)]
    case Object(_, _, _, _, repr) => [Str(repr)]
  }

  /** `_value_sql` */
  function ValueSql(v: Value, qualify: bool): Option<Lexemes> {
    if v.Object? && v.column != "" then Ref(v.column, qualify) else Some(Literal(v))
  }

  /** `_quote_list` */
  function QuoteList(vs: seq<Value>, qualify: bool): Option<Lexemes> {
    if vs == [] then Some([])
    else
      var first :- ValueSql(vs[0], qualify);
      if |vs| == 1 then Some(first)
      else
        var rest :- QuoteList(vs[1..], qualify);
        Some(Comma(first, rest))
  }

  function Bounds(v: Value): (Value, Value) {
    if v.List? && |v.items| >= 2 then (v.items[0], v.items[1]) else (Null, Null)
  }

  function ItemsOf(v: Value): seq<Value> {
    if v.List? then v.items else []
  }

  function GetOr(o: Option<string>, default: string): string {
    if o.Some? then o.value else default
  }

  function IntervalText(v: Value): string {
    (if v.Object? then GetOr(v.number, "0") else "0") + " " + (if v.Object? then GetOr(v.unit, "days") else "days")
  }

  /** The interval text goes between quotes as it is. */
  function IntervalLiteral(v: Value): Lexeme {
    if '\'' in IntervalText(v) then Raw("'" + IntervalText(v) + "'") else Str(IntervalText(v))
  }

  function ValidityType(v: Value): string {
    var name := match v case Text(s) => s case _ => "";
    if name == "tinyint" then "TINYINT"
    else if name == "smallint" then "SMALLINT"
    else if name == "int" then "INT"
    else if name == "bigint" then "BIGINT"
    else if name == "float" then "FLOAT"
    else if name == "double" then "DOUBLE"
    else if name == "decimal" then "DECIMAL"
    else if name == "date" then "DATE"
    else if name == "timestamp" then "TIMESTAMP"
    else if name == "timestamp_ntz" then "TIMESTAMP_NTZ"
    else if name == "boolean" then "BOOLEAN"
    else if name == "binary" then "BINARY"
    else ""
  }

  const HEX: string := "[0-9a-fA-F]"
  const OCTET: string := "(25[0-5]|2[0-4][0-9]|1?[0-9]?[0-9])"
  const UUID: string := "^" + HEX + "{8}-" + HEX + "{4}-" + HEX + "{4}-" + HEX + "{4}-" + HEX + "{12}$"
  const IPV4: string := "^(" + OCTET + "\\.)" + "{3}" + OCTET + "$"

  const NOW: Lexemes := Call("current_timestamp", [])
  const ZERO: Lexemes := [Word("0")]

  function BetweenSql(left: Lexemes, lo: Lexemes, hi: Lexemes): Lexemes {
    Infix(Infix(left, Key(KBetween), lo), Key(KAnd), hi)
  }

  function IsNullSql(left: Lexemes): Lexemes {
    Infix(left, Key(KIs), [Word("NULL")])
  }

  function IsNotNullSql(left: Lexemes): Lexemes {
    Infix(Sp(left, [Key(KIs)]), Key(KNot), [Word("NULL")])
  }

  function Digits(left: Lexemes): Lexemes {
    Call("regexp_replace", Comma(Comma(left, [Str("[^0-9]")]), [Str("")]))
  }

  function TryCast(left: Lexemes, v: Value): Lexemes {
    Call("TRY_CAST", Infix(left, Word("AS"), [Word(ValidityType(v))]))
  }

  function ComparisonOf(op: CompareOp): Comparison {
    match op
    case Cmp(c) => c
    case Equals => Eq
    case NotEquals => Ne
    case Before => Lt
    case After => Gt
    case OnOrBefore => Le
    case OnOrAfter => Ge
  }

  function RangeSql(left: Lexemes, op: RangeOp, value: Value, qualify: bool): Option<Lexemes> {
    match op
    case Between =>
      var lo :- ValueSql(Bounds(value).0, qualify);
      var hi :- ValueSql(Bounds(value).1, qualify);
      Some(BetweenSql(left, lo, hi))
    case LengthBetween =>
      var lo :- ValueSql(Bounds(value).0, qualify);
      var hi :- ValueSql(Bounds(value).1, qualify);
      Some(BetweenSql(Call("length", left), lo, hi))
    case In => var list :- QuoteList(ItemsOf(value), qualify); Some(Infix(left, Key(KIn), Brackets(list)))
    case NotIn =>
      var list :- QuoteList(ItemsOf(value), qualify);
      Some(Infix(Sp(left, [Key(KNot)]), Key(KIn), Brackets(list)))
  }

  function NullSql(left: Lexemes, op: NullOp, value: Value): Lexemes {
    match op
    case IsNull => IsNullSql(left)
    case IsNotNull => IsNotNullSql(left)
    case IsAValid => if ValidityType(value) == "" then [] else IsNotNullSql(TryCast(left, value))
    case IsNotAValid => if ValidityType(value) == "" then [] else IsNullSql(TryCast(left, value))
  }

  function CallSql(left: Lexemes, op: CallOp, value: Value): Lexemes {
    var args := Comma(left, Literal(value));
    match op
    case Contains => Call("contains", args)
    case DoesNotContain => Sp([Key(KNot)], Call("contains", args))
    case StartsWith => Call("startswith", args)
    case EndsWith => Call("endswith", args)
  }

  function RegexSql(left: Lexemes, op: RegexOp, value: Value): Lexemes {
    match op
    case MatchesRegex => Infix(left, Word("RLIKE"), Literal(value))
    case DoesNotMatchRegex => Sp([Key(KNot)], Brackets(Infix(left, Word("RLIKE"), Literal(value))))
    case OnlyDigits => Infix(left, Word("RLIKE"), [Str("^[0-9]+$")])
    case IsUuid => Infix(left, Word("RLIKE"), [Str(UUID)])
    case IsIpv4 => Infix(left, Word("RLIKE"), [Str(IPV4)])
  }

  function LengthSql(left: Lexemes, op: LengthOp, value: Value): Lexemes {
    match op
    case HasLength => Infix(Call("length", left), Key(KCmp(Eq)), Literal(value))
    case IsLongerThan => Infix(Call("length", left), Key(KCmp(Gt)), Literal(value))
    case IsShorterThan => Infix(Call("length", left), Key(KCmp(Lt)), Literal(value))
    case IsNotEmpty => Infix(Call("length", Call("trim", left)), Key(KCmp(Gt)), ZERO)
    case IsEmpty => Infix(Call("length", Call("trim", left)), Key(KCmp(Eq)), ZERO)
  }

  function ShapeSql(left: Lexemes, op: ShapeOp): Lexemes {
    match op
    case HasOuterSpace => Infix(left, Key(KCmp(Ne)), Call("TRIM", left))
    case HasNoOuterSpace => Infix(left, Key(KCmp(Eq)), Call("TRIM", left))
    case IsUppercase => Infix(left, Key(KCmp(Eq)), Call("upper", left))
    case IsLowercase => Infix(left, Key(KCmp(Eq)), Call("lower", left))
    case IsWholeNumber => Infix(left, Key(KCmp(Eq)), Call("round", left))
  }

  function ConstantSql(left: Lexemes, op: ConstantOp, value: Value): Lexemes {
    match op
    case IsTrue => Infix(left, Key(KCmp(Eq)), [Word("TRUE")])
    case IsFalse => Infix(left, Key(KCmp(Eq)), [Word("FALSE")])
    case IsPositive => Infix(left, Key(KCmp(Gt)), ZERO)
    case IsNegative => Infix(left, Key(KCmp(Lt)), ZERO)
    case IsNonNegative => Infix(left, Key(KCmp(Ge)), ZERO)
    case IsMultipleOf => Infix(Call("mod", Comma(left, Literal(value))), Key(KCmp(Eq)), ZERO)
  }

  /** `current_timestamp() - INTERVAL '<number> <unit>'` */
  function EarliestSql(value: Value): Lexemes {
    Infix(NOW, Word("-"), Sp([Word("INTERVAL")], [IntervalLiteral(value)]))
  }

  function TimeSql(left: Lexemes, op: TimeOp, value: Value): Lexemes {
    match op
    case IsInLast => Infix(left, Key(KCmp(Ge)), EarliestSql(value))
    case IsInFuture => Infix(left, Key(KCmp(Gt)), NOW)
    case IsInPast => Infix(left, Key(KCmp(Lt)), NOW)
    case IsToday => Infix(Call("to_date", left), Key(KCmp(Eq)), Call("current_date", []))
  }

  function SentimentSql(left: Lexemes, positive: bool): Lexemes {
    Infix(Call("ai_analyze_sentiment", left), Key(KCmp(Eq)), [Str(if positive then "positive" else "negative")])
  }

  function LuhnSql(left: Lexemes): Lexemes {
    Infix(Infix(Call("length", Digits(left)), Key(KCmp(Gt)), ZERO), Key(KAnd), Call("luhn_check", Digits(left)))
  }

  /** `_row_sql`: no lexemes when the row has no SQL form. */
  function RowSql(left: Lexemes, op: Operator, value: Value, qualify: bool): Option<Lexemes> {
    match op
    case Compares(o) => var v :- ValueSql(value, qualify); Some(Infix(left, Key(KCmp(ComparisonOf(o))), v))
    case Ranges(o) => RangeSql(left, o, value, qualify)
    case Nulls(o) => Some(NullSql(left, o, value))
    case Calls(o) => Some(CallSql(left, o, value))
    case Regexes(o) => Some(RegexSql(left, o, value))
    case Lengths(o) => Some(LengthSql(left, o, value))
    case Shapes(o) => Some(ShapeSql(left, o))
    case Constants(o) => Some(ConstantSql(left, o, value))
    case Times(o) => Some(TimeSql(left, o, value))
    case Sentiment(positive) => Some(SentimentSql(left, positive))
    case PassesLuhn => Some(LuhnSql(left))
    case Unknown => Some([])
  }

  // ----- aggregates -----

  function AggName(a: Aggregate): string
    requires !a.UnknownAggregate?
  {
    match a
    case Count => "COUNT"
    case CountDistinct => "COUNT"
    case ApproxCountDistinct => "APPROX_COUNT_DISTINCT"
    case NullRate => "SUM"
    case Sum => "SUM"
    case Avg => "AVG"
    case Min => "MIN"
    case Max => "MAX"
    case Stddev => "STDDEV_POP"
    case StddevSamp => "STDDEV_SAMP"
    case Variance => "VAR_POP"
    case VarSamp => "VAR_SAMP"
    case Median => "MEDIAN"
    case Percentile => "PERCENTILE"
    case PercentileApprox => "PERCENTILE_APPROX"
    case BoolAnd => "BOOL_AND"
    case BoolOr => "BOOL_OR"
    case AnyValue => "ANY_VALUE"
    case Mode => "MODE"
  }

  /** `CASE WHEN c IS NULL THEN 1 ELSE 0 END` */
  function NullFlag(c: Lexemes): Lexemes {
    Sp(Sp(Sp(IsNullSql(Sp(Sp([Word("CASE")], [Word("WHEN")]), c)), [Word("THEN")]), [Word("1")]),
       Sp(Sp([Word("ELSE")], [Word("0")]), [Word("END")]))
  }

  /** `(<sum> * 1.0 / NULLIF(COUNT(*), 0))` */
  function Share(sum: Lexemes): Lexemes {
    Brackets(Infix(Infix(sum, Word("*"), [Word("1.0")]), Word("/"),
                   Call("NULLIF", Comma(Call("COUNT", [Word("*")]), [Word("0")]))))
  }

  /** One entry of `_AGG_SQL`. */
  function AggSql(a: Aggregate, c: Lexemes, param: Option<string>): Lexemes
    requires !a.UnknownAggregate?
  {
    match a
    case CountDistinct => Call("COUNT", Sp([Word("DISTINCT")], c))
    case NullRate =>
      Share(Call("SUM", NullFlag(c)))
    case Percentile => Call("PERCENTILE", Comma(c, [Word(GetOr(param, "0.5"))]))
    case PercentileApprox => Call("PERCENTILE_APPROX", Comma(c, [Word(GetOr(param, "0.5"))]))
    case _ => Call(AggName(a), c)
  }

  /** `_agg_expr`: no lexemes when the aggregate or its column is missing. */
  function AggExpr(spec: AggSpec, qualify: bool): Option<Lexemes> {
    if spec.aggregate.UnknownAggregate? || spec.column == "" then Some([])
    else
      var c :- Ref(spec.column, qualify);
      Some(AggSql(spec.aggregate, c, spec.param))
  }

  /** `_compile_row` */
  function CompileRow(row: Row, qualify: bool): Option<Lexemes> {
    match row
    case NotAnObject => Some([])
    case Single(column, op, value, _) =>
      if column == "" then Some([])
      else
        var left :- Ref(column, qualify);
        RowSql(left, op, value, qualify)
    case Aggregated(spec, op, value, _) =>
      var left :- AggExpr(spec, qualify);
      if left == [] then Some([])
      else
        match op
        case Compares(Cmp(c)) =>
          if value.Object? && value.aggregate.Some? then
            var right :- AggExpr(value.aggregate.value, qualify);
            Some(Infix(left, Key(KCmp(c)), right))
          else Some(Infix(left, Key(KCmp(c)), Literal(value)))
        case Nulls(IsNull) => Some(IsNullSql(left))
        case Nulls(IsNotNull) => Some(IsNotNullSql(left))
        case Ranges(Between) => Some(BetweenSql(left, Literal(Bounds(value).0), Literal(Bounds(value).1)))
        case _ => Some([])
  }

  function Combinator(row: Row): string {
    if row.NotAnObject? || row.combinator == "" then "AND" else row.combinator
  }

  // ----- the row stack -----

  /** What row `i` adds to the list of parts: nothing, its fragment, or combinator and fragment. */
  function Part(row: Row, i: nat, frag: Lexemes): Lexemes {
    if i == 0 then frag else Sp([AsWord(Combinator(row))], frag)
  }

  lemma PartNotEmpty(row: Row, i: nat, frag: Lexemes)
    requires frag != []
    ensures Part(row, i, frag) != []
  {
    var c := [AsWord(Combinator(row))];
    assert Sp(c, frag)[1] == Space;
  }

  /** The parts of rows `i..`, joined by spaces. */
  function StackFrom(rows: seq<Row>, i: nat, qualify: bool): Option<Lexemes>
    requires i <= |rows|
    decreases |rows| - i
  {
    if i == |rows| then Some([])
    else
      var frag :- CompileRow(rows[i], qualify);
      var rest :- StackFrom(rows, i + 1, qualify);
      if frag == [] then Some(rest)
      else if rest == [] then Some(Part(rows[i], i, frag))
      else Some(Sp(Part(rows[i], i, frag), rest))
  }

  function Stack(rows: seq<Row>, qualify: bool): Option<Lexemes> {
    StackFrom(rows, 0, qualify)
  }

  /** Parts joined by single spaces, as `" ".join(parts)`. */
  function JoinParts(parts: seq<Lexemes>): Lexemes {
    if parts == [] then []
    else if |parts| == 1 then parts[0]
    else Sp(parts[0], JoinParts(parts[1..]))
  }

  lemma {:induction false} JoinPartsSnoc(parts: seq<Lexemes>, tail: Lexemes)
    requires parts != []
    ensures JoinParts(parts + [tail]) == Sp(JoinParts(parts), tail)
  {
    if |parts| == 1 {
      assert (parts + [tail])[1..] == [tail];
    } else {
      assert (parts + [tail])[1..] == parts[1..] + [tail];
      JoinPartsSnoc(parts[1..], tail);
    }
  }

  /** The parts so far and the text of the rows to come. */
  function Folded(parts: seq<Lexemes>, rest: Lexemes): Lexemes {
    if parts == [] then rest else if rest == [] then JoinParts(parts) else Sp(JoinParts(parts), rest)
  }

  lemma FoldedStep(parts: seq<Lexemes>, part: Lexemes, rest: Lexemes)
    requires part != []
    ensures Folded(parts, if rest == [] then part else Sp(part, rest)) == Folded(parts + [part], rest)
  {
    if parts != [] {
      JoinPartsSnoc(parts, part);
      assert Sp(JoinParts(parts), Sp(part, rest)) == Sp(Sp(JoinParts(parts), part), rest);
    }
    assert Sp(part, rest)[|part|] == Space;
  }

  /** `compile_ast_to_sql`: the loop over the rows, against `Stack`. */
  method CompileAstToSql(rows: seq<Row>, qualify: bool) returns (sql: Option<Lexemes>)
    ensures sql == Stack(rows, qualify)
  {
    hide JoinParts;
    hide CompileRow;
    var parts: seq<Lexemes> := [];
    var i := 0;
    while i < |rows|
      invariant i <= |rows|
      invariant forall p <- parts :: p != []
      invariant Stack(rows, qualify) ==
                match StackFrom(rows, i, qualify)
                case None => None
                case Some(rest) => Some(Folded(parts, rest))
    {
      var frag := CompileRow(rows[i], qualify);
      if frag.None? {
        return None;
      }
      if frag.value != [] {
        var part := Part(rows[i], i, frag.value);
        PartNotEmpty(rows[i], i, frag.value);
        if StackFrom(rows, i + 1, qualify).Some? {
          FoldedStep(parts, part, StackFrom(rows, i + 1, qualify).value);
        }
        parts := parts + [part];
      }
      i := i + 1;
    }
    if parts == [] {
      return Some([]);
    }
    return Some(JoinParts(parts));
  }
}
