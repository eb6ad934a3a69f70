/**
 The emitted text of rows and stacks, written down a second time as plain strings, operator
 by operator. The lexeme compiler prints exactly this text, for every row, and raises exactly
 where this one does.
 */
module LowcodeText {
  import opened LowcodeRows
  import opened SqlText
  import opened Text

  // ----- columns and operands -----

  /** A character an identifier part may hold: no backtick, no backslash, no control character. */
  predicate PartChar(c: char) {
    c as int >= 32 && c as int != 127 && c != '`' && c != '\\'
  }

  /** One to 255 such characters; the pattern lets one line feed through at the end. */
  predicate PartAllowed(p: string) {
    && 1 <= |p| <= 255 && PartChar(p[0])
    && forall i :: 0 < i < |p| ==> PartChar(p[i]) || (p[i] == '\n' && i == |p| - 1)
  }

  function Ticked(parts: seq<string>): seq<string> {
    if parts == [] then [] else ["`" + parts[0] + "`"] + Ticked(parts[1..])
  }

  /** `_quote_ident_path` */
  function PathSql(path: string): Option<string> {
    if forall p <- SplitOn(path, '.') :: PartAllowed(p) then Some(Join(Ticked(SplitOn(path, '.')), ".")) else None
  }

  /** `_ref` */
  function ColumnSql(column: string, q: bool): Option<string> {
    if '.' in column then PathSql(column)
    else if q then Some("{{input_view}}.{{" + column + "}}")
    else Some("{{" + column + "}}")
  }

  /** `_quote` */
  function QuoteSql(v: Value): string {
    match v
    case Null => "NULL"
    case Bool(true) => "TRUE"
    case Bool(false) => "FALSE"
    case Num(text) => text
    case Text(s) => "'" + DoubleQuotes(s) + "'"
    case List(_, repr) => "'" + DoubleQuotes(repr) + "'"
    case Object(_, _, _, _, repr) => "'" + DoubleQuotes(repr) + "'"
  }

  /** `_value_sql` */
  function OperandSql(v: Value, q: bool): Option<string> {
    if v.Object? && v.column != "" then ColumnSql(v.column, q) else Some(QuoteSql(v))
  }

  function OperandsSql(vs: seq<Value>, q: bool): Option<seq<string>> {
    if vs == [] then Some([])
    else
      var first :- OperandSql(vs[0], q);
      var rest :- OperandsSql(vs[1..], q);
      Some([first] + rest)
  }

  /** The SQL types a value can be cast to. */
  const CAST_TYPES: map<string, string> := map[
    "tinyint" := "TINYINT", "smallint" := "SMALLINT", "int" := "INT", "bigint" := "BIGINT", "float" := "FLOAT",
    "double" := "DOUBLE", "decimal" := "DECIMAL", "date" := "DATE", "timestamp" := "TIMESTAMP",
    "timestamp_ntz" := "TIMESTAMP_NTZ", "boolean" := "BOOLEAN", "binary" := "BINARY"]

  // ----- one row -----

  /** Two bounds; NULL when the operand is no list of at least two. */
  function BetweenSqlText(x: string, v: Value, q: bool): Option<string> {
    var lo :- if v.List? && |v.items| >= 2 then OperandSql(v.items[0], q) else Some("NULL");
    var hi :- if v.List? && |v.items| >= 2 then OperandSql(v.items[1], q) else Some("NULL");
    Some(x + " BETWEEN " + lo + " AND " + hi)
  }

  function ListSqlText(x: string, negated: bool, v: Value, q: bool): Option<string> {
    var items :- OperandsSql(if v.List? then v.items else [], q);
    Some(x + (if negated then " NOT IN (" else " IN (") + Join(items, ", ") + ")")
  }

  function CompareText(x: string, op: CompareOp, v: Value, q: bool): Option<string> {
    var y :- OperandSql(v, q);
    match op
    case Cmp(Eq) => Some(x + " = " + y)
    case Cmp(Ne) => Some(x + " != " + y)
    case Cmp(Lt) => Some(x + " < " + y)
    case Cmp(Le) => Some(x + " <= " + y)
    case Cmp(Gt) => Some(x + " > " + y)
    case Cmp(Ge) => Some(x + " >= " + y)
    case Equals => Some(x + " = " + y)
    case NotEquals => Some(x + " != " + y)
    case Before => Some(x + " < " + y)
    case After => Some(x + " > " + y)
    case OnOrBefore => Some(x + " <= " + y)
    case OnOrAfter => Some(x + " >= " + y)
  }

  function NullText(x: string, op: NullOp, v: Value): string {
    match op
    case IsNull => x + " IS NULL"
    case IsNotNull => x + " IS NOT NULL"
    case IsAValid =>
      if v.Text? && v.s in CAST_TYPES then "TRY_CAST(" + x + " AS " + CAST_TYPES[v.s] + ") IS NOT NULL" else ""
    case IsNotAValid =>
      if v.Text? && v.s in CAST_TYPES then "TRY_CAST(" + x + " AS " + CAST_TYPES[v.s] + ") IS NULL" else ""
  }

  function CallOpText(x: string, op: CallOp, v: Value): string {
    match op
    case Contains => "contains(" + x + ", " + QuoteSql(v) + ")"
    case DoesNotContain => "NOT contains(" + x + ", " + QuoteSql(v) + ")"
    case StartsWith => "startswith(" + x + ", " + QuoteSql(v) + ")"
    case EndsWith => "endswith(" + x + ", " + QuoteSql(v) + ")"
  }

  const HEX_DIGIT := "[0-9a-fA-F]"
  const BYTE_RANGE := "(25[0-5]|2[0-4][0-9]|1?[0-9]?[0-9])"
  const UUID_PATTERN :=
    "^" + HEX_DIGIT + "{8}-" + HEX_DIGIT + "{4}-" + HEX_DIGIT + "{4}-" + HEX_DIGIT + "{4}-" + HEX_DIGIT + "{12}$"
  const IPV4_PATTERN := "^(" + BYTE_RANGE + "\\.)" + "{3}" + BYTE_RANGE + "$"

  function RegexText(x: string, op: RegexOp, v: Value): string {
    match op
    case MatchesRegex => x + " RLIKE " + QuoteSql(v)
    case DoesNotMatchRegex => "NOT (" + x + " RLIKE " + QuoteSql(v) + ")"
    case OnlyDigits => x + " RLIKE '^[0-9]+$'"
    case IsUuid => x + " RLIKE '" + UUID_PATTERN + "'"
    case IsIpv4 => x + " RLIKE '" + IPV4_PATTERN + "'"
  }

  function LengthText(x: string, op: LengthOp, v: Value): string {
    match op
    case HasLength => "length(" + x + ") = " + QuoteSql(v)
    case IsLongerThan => "length(" + x + ") > " + QuoteSql(v)
    case IsShorterThan => "length(" + x + ") < " + QuoteSql(v)
    case IsNotEmpty => "length(trim(" + x + ")) > 0"
    case IsEmpty => "length(trim(" + x + ")) = 0"
  }

  function ShapeText(x: string, op: ShapeOp): string {
    match op
    case HasOuterSpace => x + " != TRIM(" + x + ")"
    case HasNoOuterSpace => x + " = TRIM(" + x + ")"
    case IsUppercase => x + " = upper(" + x + ")"
    case IsLowercase => x + " = lower(" + x + ")"
    case IsWholeNumber => x + " = round(" + x + ")"
  }

  function ConstantText(x: string, op: ConstantOp, v: Value): string {
    match op
    case IsTrue => x + " = TRUE"
    case IsFalse => x + " = FALSE"
    case IsPositive => x + " > 0"
    case IsNegative => x + " < 0"
    case IsNonNegative => x + " >= 0"
    case IsMultipleOf => "mod(" + x + ", " + QuoteSql(v) + ") = 0"
  }

  function TimeText(x: string, op: TimeOp, v: Value): string {
    match op
    case IsInLast =>
      var number := if v.Object? && v.number.Some? then v.number.value else "0";
      var unit := if v.Object? && v.unit.Some? then v.unit.value else "days";
      x + " >= current_timestamp() - INTERVAL '" + number + " " + unit + "'"
    case IsInFuture => x + " > current_timestamp()"
    case IsInPast => x + " < current_timestamp()"
    case IsToday => "to_date(" + x + ") = current_date()"
  }

  function LuhnText(x: string): string {
    var digits := "regexp_replace(" + x + ", '[^0-9]', '')";
    "length(" + digits + ") > 0 AND luhn_check(" + digits + ")"
  }

  /** `_row_sql` on the text of its left-hand side; "" when the operator has no form. */
  function OperatorText(x: string, op: Operator, v: Value, q: bool): Option<string> {
    match op
    case Compares(o) => CompareText(x, o, v, q)
    case Ranges(Between) => BetweenSqlText(x, v, q)
    case Ranges(LengthBetween) => BetweenSqlText("length(" + x + ")", v, q)
    case Ranges(In) => ListSqlText(x, false, v, q)
    case Ranges(NotIn) => ListSqlText(x, true, v, q)
    case Nulls(o) => Some(NullText(x, o, v))
    case Calls(o) => Some(CallOpText(x, o, v))
    case Regexes(o) => Some(RegexText(x, o, v))
    case Lengths(o) => Some(LengthText(x, o, v))
    case Shapes(o) => Some(ShapeText(x, o))
    case Constants(o) => Some(ConstantText(x, o, v))
    case Times(o) => Some(TimeText(x, o, v))
    case Sentiment(true) => Some("ai_analyze_sentiment(" + x + ") = 'positive'")
    case Sentiment(false) => Some("ai_analyze_sentiment(" + x + ") = 'negative'")
    case PassesLuhn => Some(LuhnText(x))
    case Unknown => Some("")
  }

  /** `_AGG_SQL` */
  function AggregateText(a: Aggregate, c: string, param: Option<string>): string {
    var p := if param.Some? then param.value else "0.5";
    match a
    case Count => "COUNT(" + c + ")"
    case CountDistinct => "COUNT(DISTINCT " + c + ")"
    case ApproxCountDistinct => "APPROX_COUNT_DISTINCT(" + c + ")"
    case NullRate => "(SUM(CASE WHEN " + c + " IS NULL THEN 1 ELSE 0 END) * 1.0 / NULLIF(COUNT(*), 0))"
    case Sum => "SUM(" + c + ")"
    case Avg => "AVG(" + c + ")"
    case Min => "MIN(" + c + ")"
    case Max => "MAX(" + c + ")"
    case Stddev => "STDDEV_POP(" + c + ")"
    case StddevSamp => "STDDEV_SAMP(" + c + ")"
    case Variance => "VAR_POP(" + c + ")"
    case VarSamp => "VAR_SAMP(" + c + ")"
    case Median => "MEDIAN(" + c + ")"
    case Percentile => "PERCENTILE(" + c + ", " + p + ")"
    case PercentileApprox => "PERCENTILE_APPROX(" + c + ", " + p + ")"
    case BoolAnd => "BOOL_AND(" + c + ")"
    case BoolOr => "BOOL_OR(" + c + ")"
    case AnyValue => "ANY_VALUE(" + c + ")"
    case Mode => "MODE(" + c + ")"
    case UnknownAggregate => ""
  }

  /** `_agg_expr` */
  function SpecText(spec: AggSpec, q: bool): Option<string> {
    if spec.aggregate.UnknownAggregate? || spec.column == "" then Some("")
    else
      var c :- ColumnSql(spec.column, q);
      Some(AggregateText(spec.aggregate, c, spec.param))
  }

  /** `_compile_row` */
  function RowText(row: Row, q: bool): Option<string> {
    match row
    case NotAnObject => Some("")
    case Single(column, op, value, _) =>
      if column == "" then Some("")
      else
        var x :- ColumnSql(column, q);
        OperatorText(x, op, value, q)
    case Aggregated(spec, op, value, _) =>
      var x :- SpecText(spec, q);
      if x == "" then Some("")
      else
        match op
        case Compares(Cmp(c)) =>
          if value.Object? && value.aggregate.Some? then
            var y :- SpecText(value.aggregate.value, q);
            Some(x + " " + Symbol(c) + " " + y)
          else Some(x + " " + Symbol(c) + " " + QuoteSql(value))
        case Nulls(IsNull) => Some(x + " IS NULL")
        case Nulls(IsNotNull) => Some(x + " IS NOT NULL")
        case Ranges(Between) =>
          if value.List? && |value.items| >= 2 then
            Some(x + " BETWEEN " + QuoteSql(value.items[0]) + " AND " + QuoteSql(value.items[1]))
          else Some(x + " BETWEEN NULL AND NULL")
        case _ => Some("")
  }

  // ----- the stack -----

  /** The parts of rows `i..`: the rows with a form, each after the first row with its combinator. */
  function PartTexts(rows: seq<Row>, i: nat, q: bool): Option<seq<string>>
    requires i <= |rows|
    decreases |rows| - i
  {
    if i == |rows| then Some([])
    else
      var frag :- RowText(rows[i], q);
      var rest :- PartTexts(rows, i + 1, q);
      var combinator :=
        if rows[i].NotAnObject? || rows[i].combinator == "" then "AND" else rows[i].combinator;
      Some((if frag == "" then [] else [if i == 0 then frag else combinator + " " + frag]) + rest)
  }

  /** `compile_ast_to_sql` */
  function StackText(rows: seq<Row>, q: bool): Option<string> {
    var parts :- PartTexts(rows, 0, q);
    Some(Join(parts, " "))
  }

  // ----- the printed shapes -----

  lemma WordInfixText(a: Lexemes, w: string, b: Lexemes)
    ensures Render(Infix(a, Word(w), b)) == Render(a) + (" " + w + " ") + Render(b)
  {
    hide Render, Sp;
    SpText(a, [Word(w)]);
    SpText(Sp(a, [Word(w)]), b);
    RenderOne(Word(w));
    Regroup(Render(a), " " + w, " ");
    Regroup(Render(a), " ", w);
  }

  lemma CallOneText(f: string, a: Lexemes)
    ensures Render(Call(f, a)) == (f + "(") + Render(a) + ")"
  {
    hide Render, Call;
    CallText(f, a);
    Regroup(f, "(", Render(a) + ")");
    Regroup(f + "(", Render(a), ")");
    Regroup("(", Render(a), ")");
  }

  lemma CallTwoText(f: string, a: Lexemes, b: Lexemes)
    ensures Render(Call(f, Comma(a, b))) == (f + "(") + Render(a) + ", " + Render(b) + ")"
  {
    hide Render, Call, Comma;
    CallOneText(f, Comma(a, b));
    CommaSpaceText(a, b);
    Regroup(f + "(", Render(a) + ", ", Render(b));
    Regroup(f + "(", Render(a), ", ");
  }

  lemma CommaSpaceText(a: Lexemes, b: Lexemes)
    ensures Render(Comma(a, b)) == Render(a) + ", " + Render(b)
  {
    hide Render, Comma;
    CommaText(a, b);
    Regroup(Render(a), ",", " " + Render(b));
    Regroup(",", " ", Render(b));
    Regroup(Render(a), ", ", Render(b));
    assert "," + " " == ", ";
  }

  /** A comparison printed with its symbol. */
  lemma CompareShown(a: Lexemes, c: Comparison, b: Lexemes)
    ensures Render(Infix(a, Key(KCmp(c)), b)) == Render(a) + (" " + Symbol(c) + " ") + Render(b)
  {
    hide Render, Infix;
    InfixText(a, KCmp(c), b);
  }

  lemma Symbols()
    ensures " " + Symbol(Eq) + " " == " = " && " " + Symbol(Ne) + " " == " != "
    ensures " " + Symbol(Lt) + " " == " < " && " " + Symbol(Le) + " " == " <= "
    ensures " " + Symbol(Gt) + " " == " > " && " " + Symbol(Ge) + " " == " >= "
  {
  }

  // ----- columns and operands are printed so -----

  lemma PartsAllowedAlike(p: string)
    ensures ValidPart(p) <==> PartAllowed(p)
  {
    if p != "" {
      var body := if p[|p| - 1] == '\n' then p[..|p| - 1] else p;
      if ValidPart(p) {
        assert p[0] == body[0] && body[0] in body;
        forall i | 0 < i < |p|
          ensures PartChar(p[i]) || (p[i] == '\n' && i == |p| - 1)
        {
          assert i < |body| ==> p[i] == body[i] && body[i] in body;
        }
      }
      if PartAllowed(p) {
        forall c <- body
          ensures c != '`' && c != '\\' && c >= ' ' && c != '\U{7F}'
        {
          var i :| 0 <= i < |body| && body[i] == c;
          assert i == 0 ==> PartChar(p[i]);
        }
      }
    }
  }

  lemma {:induction false} QuotePartsText(parts: seq<string>)
    requires parts != []
    ensures Render(QuoteParts(parts)) == Join(Ticked(parts), ".")
  {
    hide Render;
    RenderOne(Quoted(parts[0]));
    if |parts| == 1 {
      assert Ticked(parts[1..]) == [];
    } else {
      var rest := parts[1..];
      QuotePartsText(rest);
      RenderAppend([Quoted(parts[0]), Word(".")], QuoteParts(rest));
      RenderAppend([Quoted(parts[0])], [Word(".")]);
      RenderOne(Word("."));
      assert [Quoted(parts[0]), Word(".")] == [Quoted(parts[0])] + [Word(".")];
      TickedCons(parts);
    }
  }

  lemma TickedCons(parts: seq<string>)
    requires |parts| > 1
    ensures Join(Ticked(parts), ".") == "`" + parts[0] + "`" + "." + Join(Ticked(parts[1..]), ".")
  {
    var rest := Ticked(parts[1..]);
    assert rest == ["`" + parts[1] + "`"] + Ticked(parts[1..][1..]);
    assert Ticked(parts)[1..] == rest && |Ticked(parts)| > 1;
  }

  lemma PathPrints(path: string)
    ensures QuotePath(path).Some? == PathSql(path).Some?
    ensures QuotePath(path).Some? ==> Render(QuotePath(path).value) == PathSql(path).value
  {
    hide ValidPart, PartAllowed;
    forall p <- SplitOn(path, '.')
      ensures ValidPart(p) <==> PartAllowed(p)
    {
      PartsAllowedAlike(p);
    }
    QuotePartsText(SplitOn(path, '.'));
  }

  lemma ColumnPrints(column: string, q: bool)
    ensures Ref(column, q).Some? == ColumnSql(column, q).Some?
    ensures Ref(column, q).Some? ==> Render(Ref(column, q).value) == ColumnSql(column, q).value
  {
    hide QuotePath, PathSql, Render;
    if '.' in column {
      PathPrints(column);
    } else {
      RenderOne(Slot(column));
      if q {
        QualifiedPrints(column);
      }
    }
  }

  lemma QualifiedPrints(column: string)
    ensures Render([Slot(INPUT_VIEW), Word("."), Slot(column)]) == "{{input_view}}.{{" + column + "}}"
  {
    hide Render;
    var a, dot, c := [Slot(INPUT_VIEW)], [Word(".")], [Slot(column)];
    RenderAppend(a + dot, c);
    RenderAppend(a, dot);
    RenderOne(Slot(INPUT_VIEW));
    RenderOne(Word("."));
    RenderOne(Slot(column));
    assert a + dot + c == [Slot(INPUT_VIEW), Word("."), Slot(column)];
    assert "{{" + INPUT_VIEW + "}}" + "." == "{{input_view}}.";
    Regroup("{{input_view}}.", "{{", column + "}}");
    assert "{{input_view}}." + "{{" == "{{input_view}}.{{";
    Regroup("{{input_view}}.{{", column, "}}");
    Regroup("{{", column, "}}");
  }

  lemma LiteralPrints(v: Value)
    ensures Render(Literal(v)) == QuoteSql(v)
  {
    hide Render, DoubleQuotes;
    RenderOne(Literal(v)[0]);
  }

  lemma OperandPrints(v: Value, q: bool)
    ensures ValueSql(v, q).Some? == OperandSql(v, q).Some?
    ensures ValueSql(v, q).Some? ==> Render(ValueSql(v, q).value) == OperandSql(v, q).value
  {
    hide Ref, ColumnSql, Literal, QuoteSql, Render;
    if v.Object? && v.column != "" {
      ColumnPrints(v.column, q);
    } else {
      LiteralPrints(v);
    }
  }

  lemma {:induction false} ListPrints(vs: seq<Value>, q: bool)
    ensures QuoteList(vs, q).Some? == OperandsSql(vs, q).Some?
    ensures QuoteList(vs, q).Some? ==> Render(QuoteList(vs, q).value) == Join(OperandsSql(vs, q).value, ", ")
    ensures OperandsSql(vs, q).Some? ==> |OperandsSql(vs, q).value| == |vs|
  {
    if vs == [] {
      assert Render([]) == "";
    } else {
      hide ValueSql, OperandSql, Render;
      OperandPrints(vs[0], q);
      ListPrints(vs[1..], q);
      if |vs| > 1 && QuoteList(vs, q).Some? {
        CommaSpaceText(ValueSql(vs[0], q).value, QuoteList(vs[1..], q).value);
        var texts := OperandsSql(vs[1..], q).value;
        assert ([OperandSql(vs[0], q).value] + texts)[1..] == texts;
      }
    }
  }

  lemma CastTypes(v: Value)
    ensures ValidityType(v) == if v.Text? && v.s in CAST_TYPES then CAST_TYPES[v.s] else ""
  {
    if v.Text? && v.s !in CAST_TYPES {
      assert forall k <- CAST_TYPES :: k != v.s;
    }
  }

  // ----- each operator is printed so -----

  lemma ComparePrints(left: Lexemes, op: CompareOp, v: Value, q: bool)
    ensures ValueSql(v, q).Some? == CompareText(Render(left), op, v, q).Some?
    ensures ValueSql(v, q).Some? ==>
              Render(Infix(left, Key(KCmp(ComparisonOf(op))), ValueSql(v, q).value))
              == CompareText(Render(left), op, v, q).value
  {
    hide Render, Infix, ValueSql, OperandSql, Symbol;
    OperandPrints(v, q);
    Symbols();
    if ValueSql(v, q).Some? {
      CompareShown(left, ComparisonOf(op), ValueSql(v, q).value);
    }
  }

  lemma BetweenShown(left: Lexemes, lo: Lexemes, hi: Lexemes)
    ensures Render(BetweenSql(left, lo, hi)) == Render(left) + " BETWEEN " + Render(lo) + " AND " + Render(hi)
  {
    hide Render, Infix;
    InfixText(left, KBetween, lo);
    InfixText(Infix(left, Key(KBetween), lo), KAnd, hi);
    assert " " + Spelling(KBetween) + " " == " BETWEEN " && " " + Spelling(KAnd) + " " == " AND ";
  }

  lemma NullPrints()
    ensures forall q :: OperandSql(Null, q) == Some("NULL")
  {
  }

  lemma BetweenPrints(left: Lexemes, v: Value, q: bool)
    ensures RangeSql(left, Between, v, q).Some? == BetweenSqlText(Render(left), v, q).Some?
    ensures RangeSql(left, Between, v, q).Some? ==>
              Render(RangeSql(left, Between, v, q).value) == BetweenSqlText(Render(left), v, q).value
  {
    hide Render, BetweenSql, ValueSql, OperandSql;
    var (lo, hi) := Bounds(v);
    NullPrints();
    OperandPrints(lo, q);
    OperandPrints(hi, q);
    if RangeSql(left, Between, v, q).Some? {
      BetweenShown(left, ValueSql(lo, q).value, ValueSql(hi, q).value);
    }
  }

  lemma ListTestPrints(left: Lexemes, negated: bool, v: Value, q: bool)
    ensures var r := RangeSql(left, if negated then NotIn else In, v, q);
            && r.Some? == ListSqlText(Render(left), negated, v, q).Some?
            && (r.Some? ==> Render(r.value) == ListSqlText(Render(left), negated, v, q).value)
  {
    hide Render, Infix, Brackets, Sp, QuoteList, OperandsSql;
    ListPrints(ItemsOf(v), q);
    if QuoteList(ItemsOf(v), q).Some? {
      var list := QuoteList(ItemsOf(v), q).value;
      BracketsText(list);
      if negated {
        SpText(left, [Key(KNot)]);
        RenderOne(Key(KNot));
        InfixText(Sp(left, [Key(KNot)]), KIn, Brackets(list));
        NotInShown(Render(left), Render(list));
      } else {
        InfixText(left, KIn, Brackets(list));
        InShown(Render(left), Render(list));
      }
    }
  }

  lemma InShown(x: string, list: string)
    ensures x + (" " + Spelling(KIn) + " ") + ("(" + list + ")") == x + " IN (" + list + ")"
  {
    assert " " + Spelling(KIn) + " " == " IN " && " IN " + "(" == " IN (";
    Regroup(x + " IN ", "(" + list, ")");
    Regroup(x + " IN ", "(", list);
    Regroup(x, " IN ", "(");
  }

  lemma NotInShown(x: string, list: string)
    ensures x + " " + Spelling(KNot) + (" " + Spelling(KIn) + " ") + ("(" + list + ")") == x + " NOT IN (" + list + ")"
  {
    InShown(x + " " + Spelling(KNot), list);
    Regroup(x, " ", Spelling(KNot));
    Regroup(x, " " + Spelling(KNot), " IN (");
    assert " " + Spelling(KNot) + " IN (" == " NOT IN (";
  }

  lemma IsNullShown(left: Lexemes)
    ensures Render(IsNullSql(left)) == Render(left) + " IS NULL"
    ensures Render(IsNotNullSql(left)) == Render(left) + " IS NOT NULL"
  {
    hide Render, Infix, Sp;
    RenderOne(Word("NULL"));
    RenderOne(Key(KIs));
    InfixText(left, KIs, [Word("NULL")]);
    SpText(left, [Key(KIs)]);
    InfixText(Sp(left, [Key(KIs)]), KNot, [Word("NULL")]);
    NullWords(Render(left));
  }

  lemma NullWords(x: string)
    ensures x + (" " + Spelling(KIs) + " ") + "NULL" == x + " IS NULL"
    ensures x + " " + Spelling(KIs) + (" " + Spelling(KNot) + " ") + "NULL" == x + " IS NOT NULL"
  {
    Regroup(x, " " + Spelling(KIs) + " ", "NULL");
    assert " " + Spelling(KIs) + " " + "NULL" == " IS NULL";
    Regroup(x, " ", Spelling(KIs));
    Regroup(x, " " + Spelling(KIs), " " + Spelling(KNot) + " ");
    Regroup(x, " " + Spelling(KIs) + (" " + Spelling(KNot) + " "), "NULL");
    assert " " + Spelling(KIs) + (" " + Spelling(KNot) + " ") + "NULL" == " IS NOT NULL";
  }

  lemma TryCastShown(left: Lexemes, v: Value)
    ensures Render(TryCast(left, v)) == "TRY_CAST(" + Render(left) + " AS " + ValidityType(v) + ")"
  {
    hide Render, Infix, Call, ValidityType;
    var t := ValidityType(v);
    CallOneText("TRY_CAST", Infix(left, Word("AS"), [Word(t)]));
    WordInfixText(left, "AS", [Word(t)]);
    RenderOne(Word(t));
    assert " " + "AS" + " " == " AS " && "TRY_CAST" + "(" == "TRY_CAST(";
    Regroup("TRY_CAST(", Render(left) + " AS ", t);
    Regroup("TRY_CAST(", Render(left), " AS ");
  }

  lemma NullOpPrints(left: Lexemes, op: NullOp, v: Value)
    ensures Render(NullSql(left, op, v)) == NullText(Render(left), op, v)
  {
    hide IsNullSql, IsNotNullSql, TryCast, CAST_TYPES, ValidityType;
    CastTypes(v);
    IsNullShown(left);
    IsNullShown(TryCast(left, v));
    TryCastShown(left, v);
    CastNotEmpty(v);
    if ValidityType(v) != "" {
      hide Render;
      var x, t := "TRY_CAST(" + Render(left) + " AS ", ValidityType(v);
      CastWords(x + t);
    }
  }

  lemma CastNotEmpty(v: Value)
    ensures forall k <- CAST_TYPES :: CAST_TYPES[k] != ""
  {
  }

  lemma CastWords(x: string)
    ensures x + ")" + " IS NULL" == x + ") IS NULL" && x + ")" + " IS NOT NULL" == x + ") IS NOT NULL"
  {
    Regroup(x, ")", " IS NULL");
    Regroup(x, ")", " IS NOT NULL");
    assert ")" + " IS NULL" == ") IS NULL" && ")" + " IS NOT NULL" == ") IS NOT NULL";
  }

  lemma CallPrints(left: Lexemes, op: CallOp, v: Value)
    ensures Render(CallSql(left, op, v)) == CallOpText(Render(left), op, v)
  {
    hide Render, Call, Comma, Sp, Literal, QuoteSql;
    LiteralPrints(v);
    var args := Comma(left, Literal(v));
    match op
    case Contains =>
      CallTwoText("contains", left, Literal(v));
      assert "contains" + "(" == "contains(";
    case DoesNotContain =>
      CallTwoText("contains", left, Literal(v));
      SpText([Key(KNot)], Call("contains", args));
      RenderOne(Key(KNot));
      NotContains(Render(left), QuoteSql(v));
    case StartsWith =>
      CallTwoText("startswith", left, Literal(v));
      assert "startswith" + "(" == "startswith(";
    case EndsWith =>
      CallTwoText("endswith", left, Literal(v));
      assert "endswith" + "(" == "endswith(";
  }

  lemma NotContains(x: string, y: string)
    ensures Spelling(KNot) + " " + (("contains" + "(") + x + ", " + y + ")") == "NOT contains(" + x + ", " + y + ")"
  {
    var head := Spelling(KNot) + " ";
    var f := "contains" + "(";
    Regroup(head, f + x + ", " + y, ")");
    Regroup(head, f + x + ", ", y);
    Regroup(head, f + x, ", ");
    Regroup(head, f, x);
    assert head + f == "NOT contains(";
  }

  lemma PatternShown(left: Lexemes, pattern: string)
    requires '\'' !in pattern
    ensures Render(Infix(left, Word("RLIKE"), [Str(pattern)])) == Render(left) + " RLIKE '" + pattern + "'"
  {
    hide Render, Infix;
    WordInfixText(left, "RLIKE", [Str(pattern)]);
    RenderOne(Str(pattern));
    NothingDoubled(pattern);
    assert " " + "RLIKE" + " " == " RLIKE " && " RLIKE " + "'" == " RLIKE '";
    Regroup(Render(left) + " RLIKE ", "'" + pattern, "'");
    Regroup(Render(left) + " RLIKE ", "'", pattern);
    Regroup(Render(left), " RLIKE ", "'");
  }

  lemma Patterns()
    ensures UUID == UUID_PATTERN && IPV4 == IPV4_PATTERN
    ensures '\'' !in UUID && '\'' !in IPV4
  {
    assert HEX == HEX_DIGIT && OCTET == BYTE_RANGE;
    assert '\'' !in HEX && '\'' !in OCTET;
  }

  lemma DigitsPattern(x: string)
    ensures '\'' !in "^[0-9]+$" && x + " RLIKE '" + "^[0-9]+$" + "'" == x + " RLIKE '^[0-9]+$'"
  {
    Regroup(x + " RLIKE '", "^[0-9]+$", "'");
    Regroup(x, " RLIKE '", "^[0-9]+$" + "'");
    assert " RLIKE '" + ("^[0-9]+$" + "'") == " RLIKE '^[0-9]+$'";
  }

  lemma RegexPrints(left: Lexemes, op: RegexOp, v: Value)
    ensures Render(RegexSql(left, op, v)) == RegexText(Render(left), op, v)
  {
    hide Render, Infix, Sp, Brackets, Literal, QuoteSql, UUID, IPV4, UUID_PATTERN, IPV4_PATTERN;
    Patterns();
    LiteralPrints(v);
    WordInfixText(left, "RLIKE", Literal(v));
    RlikeShown(Render(left), QuoteSql(v));
    match op
    case MatchesRegex =>
    case DoesNotMatchRegex =>
      var inner := Infix(left, Word("RLIKE"), Literal(v));
      BracketsText(inner);
      SpText([Key(KNot)], Brackets(inner));
      RenderOne(Key(KNot));
    case OnlyDigits =>
      DigitsPattern(Render(left));
      PatternShown(left, "^[0-9]+$");
    case IsUuid => PatternShown(left, UUID);
    case IsIpv4 => PatternShown(left, IPV4);
  }

  lemma RlikeShown(x: string, y: string)
    ensures x + (" " + "RLIKE" + " ") + y == x + " RLIKE " + y
    ensures Spelling(KNot) + " " + ("(" + (x + " RLIKE " + y) + ")") == "NOT (" + x + " RLIKE " + y + ")"
  {
    assert " " + "RLIKE" + " " == " RLIKE ";
    var head := Spelling(KNot) + " ";
    Regroup(head, "(" + (x + " RLIKE " + y), ")");
    Regroup(head, "(", x + " RLIKE " + y);
    assert head + "(" == "NOT (";
    Regroup("NOT (", x + " RLIKE ", y);
    Regroup("NOT (", x, " RLIKE ");
  }

  lemma LengthShown(left: Lexemes)
    ensures Render(Call("length", left)) == "length(" + Render(left) + ")"
    ensures Render(Call("length", Call("trim", left))) == "length(trim(" + Render(left) + "))"
  {
    hide Render, Call;
    CallOneText("length", left);
    CallOneText("length", Call("trim", left));
    CallOneText("trim", left);
    assert "length" + "(" == "length(" && "trim" + "(" == "trim(";
    Nested("length(", "trim(", Render(left));
    assert "length(" + "trim(" == "length(trim(";
  }

  lemma Nested(f: string, g: string, x: string)
    ensures f + (g + x + ")") + ")" == (f + g) + x + "))"
  {
    Regroup(f, g + x, ")");
    Regroup(f, g, x);
    Regroup((f + g) + x, ")", ")");
    assert ")" + ")" == "))";
  }

  lemma Closing(x: string, c: string, y: string)
    ensures x + ")" + c + y == x + (")" + c) + y
  {
    Regroup(x, ")", c);
  }

  lemma Closings(x: string, y: string)
    ensures x + ")" + " = " + y == x + ") = " + y && x + ")" + " > " + y == x + ") > " + y
    ensures x + ")" + " < " + y == x + ") < " + y
  {
    Closing(x, " = ", y);
    Closing(x, " > ", y);
    Closing(x, " < ", y);
    assert ")" + " = " == ") = " && ")" + " > " == ") > " && ")" + " < " == ") < ";
  }

  lemma LengthPrints(left: Lexemes, op: LengthOp, v: Value)
    ensures Render(LengthSql(left, op, v)) == LengthText(Render(left), op, v)
  {
    hide Render, Infix, Call, Literal, QuoteSql, Symbol;
    LiteralPrints(v);
    LengthShown(left);
    Symbols();
    RenderOne(Word("0"));
    Closings("length(" + Render(left), QuoteSql(v));
    ZeroTests("length(trim(" + Render(left) + ")");
    var c := match op case HasLength => Eq case IsShorterThan => Lt case IsEmpty => Eq case _ => Gt;
    CompareShown(Call("length", left), c, Literal(v));
    CompareShown(Call("length", Call("trim", left)), c, ZERO);
    Regroup("length(trim(" + Render(left), ")", ")");
    TrimTests(Render(left));
  }

  lemma ZeroTests(x: string)
    ensures x + ")" + " = " + "0" == x + ") = 0" && x + ")" + " > " + "0" == x + ") > 0"
  {
    Closings(x, "0");
    Regroup(x, ") = ", "0");
    Regroup(x, ") > ", "0");
    assert ") = " + "0" == ") = 0" && ") > " + "0" == ") > 0";
  }

  lemma TrimTests(x: string)
    ensures "length(trim(" + x + "))" + " = " + "0" == "length(trim(" + x + ")) = 0"
    ensures "length(trim(" + x + "))" + " > " + "0" == "length(trim(" + x + ")) > 0"
  {
    var head := "length(trim(" + x;
    Regroup(head, "))", " = ");
    Regroup(head, "))", " > ");
    assert "))" + " = " == ")) = " && "))" + " > " == ")) > ";
    Regroup(head, ")) = ", "0");
    Regroup(head, ")) > ", "0");
    assert ")) = " + "0" == ")) = 0" && ")) > " + "0" == ")) > 0";
  }

  lemma ShapePrints(left: Lexemes, op: ShapeOp)
    ensures Render(ShapeSql(left, op)) == ShapeText(Render(left), op)
  {
    hide Render, Infix, Call, Symbol;
    Symbols();
    var f := match op
             case IsUppercase => "upper" case IsLowercase => "lower" case IsWholeNumber => "round" case _ => "TRIM";
    var c := if op.HasOuterSpace? then Ne else Eq;
    CallOneText(f, left);
    CompareShown(left, c, Call(f, left));
    ShapeShown(Render(left), " " + Symbol(c) + " ", f);
    ShapeWords();
  }

  lemma ShapeShown(x: string, c: string, f: string)
    ensures x + c + ((f + "(") + x + ")") == x + (c + (f + "(")) + x + ")"
  {
    Regroup(x + c, (f + "(") + x, ")");
    Regroup(x + c, f + "(", x);
    Regroup(x, c, f + "(");
  }

  lemma ShapeWords()
    ensures " != " + ("TRIM" + "(") == " != TRIM(" && " = " + ("TRIM" + "(") == " = TRIM("
    ensures " = " + ("upper" + "(") == " = upper(" && " = " + ("lower" + "(") == " = lower("
    ensures " = " + ("round" + "(") == " = round("
  {
  }

  lemma ConstantPrints(left: Lexemes, op: ConstantOp, v: Value)
    ensures Render(ConstantSql(left, op, v)) == ConstantText(Render(left), op, v)
  {
    hide Render, Infix, Call, Comma, Literal, QuoteSql, Symbol;
    Symbols();
    RenderOne(Word("TRUE"));
    RenderOne(Word("FALSE"));
    RenderOne(Word("0"));
    if op.IsMultipleOf? {
      LiteralPrints(v);
      CallTwoText("mod", left, Literal(v));
      CompareShown(Call("mod", Comma(left, Literal(v))), Eq, ZERO);
      ZeroTests("mod(" + Render(left) + ", " + QuoteSql(v));
      assert "mod" + "(" == "mod(";
    } else {
      var c := match op case IsPositive => Gt case IsNegative => Lt case IsNonNegative => Ge case _ => Eq;
      CompareShown(left, c, [Word(match op case IsTrue => "TRUE" case IsFalse => "FALSE" case _ => "0")]);
      ConstantWords(Render(left));
    }
  }

  lemma ConstantWords(x: string)
    ensures x + " = " + "TRUE" == x + " = TRUE" && x + " = " + "FALSE" == x + " = FALSE"
    ensures x + " > " + "0" == x + " > 0" && x + " < " + "0" == x + " < 0" && x + " >= " + "0" == x + " >= 0"
  {
    Regroup(x, " = ", "TRUE");
    Regroup(x, " = ", "FALSE");
    Regroup(x, " > ", "0");
    Regroup(x, " < ", "0");
    Regroup(x, " >= ", "0");
    assert " = " + "TRUE" == " = TRUE" && " = " + "FALSE" == " = FALSE";
    assert " > " + "0" == " > 0" && " < " + "0" == " < 0" && " >= " + "0" == " >= 0";
  }

  lemma NowShown()
    ensures Render(NOW) == "current_timestamp()" && Render(Call("current_date", [])) == "current_date()"
  {
    hide Call;
    NothingShown();
    hide Render;
    CallOneText("current_timestamp", []);
    CallOneText("current_date", []);
    assert ("current_timestamp" + "(") + "" + ")" == "current_timestamp()";
    assert ("current_date" + "(") + "" + ")" == "current_date()";
  }

  lemma NothingShown()
    ensures Render([]) == ""
  {
  }

  lemma IntervalWords(v: Value)
    ensures var number := if v.Object? && v.number.Some? then v.number.value else "0";
            var unit := if v.Object? && v.unit.Some? then v.unit.value else "days";
            IntervalText(v) == number + " " + unit
  {
  }

  lemma IntervalShown(v: Value)
    ensures Show(IntervalLiteral(v)) == "'" + IntervalText(v) + "'"
  {
    hide DoubleQuotes, IntervalText;
    if '\'' !in IntervalText(v) {
      NothingDoubled(IntervalText(v));
    }
  }

  lemma EarliestShown(x: string, number: string, unit: string)
    ensures x + " >= "
            + ("current_timestamp()" + (" " + "-" + " ") + ("INTERVAL" + " " + ("'" + (number + " " + unit) + "'")))
            == x + " >= current_timestamp() - INTERVAL '" + number + " " + unit + "'"
  {
    var inside := number + " " + unit;
    var head := " >= current_timestamp() - INTERVAL '";
    EarliestWords(x, inside);
    Regroup(x + head, number + " ", unit);
    Regroup(x + head, number, " ");
  }

  lemma EarliestWords(x: string, inside: string)
    ensures x + " >= " + ("current_timestamp()" + (" " + "-" + " ") + ("INTERVAL" + " " + ("'" + inside + "'")))
            == x + " >= current_timestamp() - INTERVAL '" + inside + "'"
  {
    var minus, interval := " " + "-" + " ", "INTERVAL" + " ";
    var now := "current_timestamp()" + minus;
    Regroup(now, interval, "'" + inside + "'");
    Regroup(x, " >= ", now + interval + ("'" + inside + "'"));
    Regroup(" >= ", now + interval, "'" + inside + "'");
    Regroup(" >= " + (now + interval), "'" + inside, "'");
    Regroup(" >= " + (now + interval), "'", inside);
    EarliestHead();
    Regroup(x, " >= current_timestamp() - INTERVAL '" + inside, "'");
    Regroup(x, " >= current_timestamp() - INTERVAL '", inside);
  }

  lemma EarliestHead()
    ensures " >= " + ("current_timestamp()" + (" " + "-" + " ") + ("INTERVAL" + " ")) + "'"
            == " >= current_timestamp() - INTERVAL '"
  {
  }

  lemma InLastPrints(left: Lexemes, v: Value)
    ensures Render(TimeSql(left, IsInLast, v)) == TimeText(Render(left), IsInLast, v)
  {
    hide Render, Infix, Call, Sp, NOW, Symbol, Show, IntervalLiteral, IntervalText;
    Symbols();
    NowShown();
    IntervalWords(v);
    IntervalShown(v);
    RenderOne(IntervalLiteral(v));
    RenderOne(Word("INTERVAL"));
    WordShown("INTERVAL");
    SpText([Word("INTERVAL")], [IntervalLiteral(v)]);
    WordInfixText(NOW, "-", Sp([Word("INTERVAL")], [IntervalLiteral(v)]));
    CompareShown(left, Ge, EarliestSql(v));
    EarliestShown(Render(left), if v.Object? && v.number.Some? then v.number.value else "0",
                  if v.Object? && v.unit.Some? then v.unit.value else "days");
  }

  lemma TimePrints(left: Lexemes, op: TimeOp, v: Value)
    ensures Render(TimeSql(left, op, v)) == TimeText(Render(left), op, v)
  {
    hide Render, Infix, Call, NOW, EarliestSql;
    match op
    case IsInLast => InLastPrints(left, v);
    case IsInFuture => NowPrints(left, Gt);
    case IsInPast => NowPrints(left, Lt);
    case IsToday => TodayPrints(left);
  }

  lemma NowPrints(left: Lexemes, c: Comparison)
    requires c == Gt || c == Lt
    ensures Render(Infix(left, Key(KCmp(c)), NOW)) ==
            Render(left) + if c == Gt then " > current_timestamp()" else " < current_timestamp()"
  {
    hide Render, Infix, Call, NOW, Symbol;
    Symbols();
    NowShown();
    CompareShown(left, c, NOW);
    Regroup(Render(left), " " + Symbol(c) + " ", "current_timestamp()");
    assert " > " + "current_timestamp()" == " > current_timestamp()";
    assert " < " + "current_timestamp()" == " < current_timestamp()";
  }

  lemma TodayPrints(left: Lexemes)
    ensures Render(Infix(Call("to_date", left), Key(KCmp(Eq)), Call("current_date", []))) ==
            "to_date(" + Render(left) + ") = current_date()"
  {
    hide Render, Infix, Call, Symbol;
    Symbols();
    NowShown();
    CallOneText("to_date", left);
    CompareShown(Call("to_date", left), Eq, Call("current_date", []));
    TodayShown(Render(left));
  }

  lemma TodayShown(x: string)
    ensures ("to_date" + "(") + x + ")" + " = " + "current_date()" == "to_date(" + x + ") = current_date()"
  {
    assert "to_date" + "(" == "to_date(";
    Closings("to_date(" + x, "current_date()");
    Regroup("to_date(" + x, ") = ", "current_date()");
    assert ") = " + "current_date()" == ") = current_date()";
  }

  lemma WordShown(w: string)
    ensures Show(Word(w)) == w
  {
  }

  lemma SentimentPrints(left: Lexemes, positive: bool)
    ensures Render(SentimentSql(left, positive)) ==
            "ai_analyze_sentiment(" + Render(left) + (if positive then ") = 'positive'" else ") = 'negative'")
  {
    hide Render, Infix, Call, Symbol, DoubleQuotes;
    var mood := if positive then "positive" else "negative";
    Symbols();
    CallOneText("ai_analyze_sentiment", left);
    RenderOne(Str(mood));
    NothingDoubled(mood);
    CompareShown(Call("ai_analyze_sentiment", left), Eq, [Str(mood)]);
    var head := "ai_analyze_sentiment(" + Render(left);
    assert "ai_analyze_sentiment" + "(" == "ai_analyze_sentiment(";
    Closings(head, "'" + mood + "'");
    Regroup(head, ") = ", "'" + mood + "'");
    MoodWords();
  }

  lemma MoodWords()
    ensures ") = " + ("'" + "positive" + "'") == ") = 'positive'"
    ensures ") = " + ("'" + "negative" + "'") == ") = 'negative'"
  {
  }

  lemma DigitsShown(left: Lexemes)
    ensures Render(Digits(left)) == "regexp_replace(" + Render(left) + ", '[^0-9]', '')"
  {
    hide Render, Call, Comma;
    var any, none := [Str("[^0-9]")], [Str("")];
    CallTwoText("regexp_replace", Comma(left, any), none);
    CommaSpaceText(left, any);
    RenderOne(Str("[^0-9]"));
    RenderOne(Str(""));
    NothingDoubled("[^0-9]");
    DigitsWords(Render(left));
  }

  lemma DigitsWords(x: string)
    ensures ("regexp_replace" + "(") + (x + ", " + ("'" + "[^0-9]" + "'")) + ", " + ("'" + "" + "'") + ")"
            == "regexp_replace(" + x + ", '[^0-9]', '')"
  {
    var f, any, none := "regexp_replace" + "(", "'" + "[^0-9]" + "'", "'" + "" + "'";
    Regroup(f, x + ", ", any);
    Regroup(f, x, ", ");
    Regroup(f + x, ", ", any);
    Regroup(f + x, ", " + any, ", ");
    Regroup(f + x, ", " + any + ", ", none);
    Regroup(f + x, ", " + any + ", " + none, ")");
    assert f == "regexp_replace(" && ", " + any + ", " + none + ")" == ", '[^0-9]', '')";
  }

  lemma LuhnPrints(left: Lexemes)
    ensures Render(LuhnSql(left)) == LuhnText(Render(left))
  {
    hide Render, Infix, Call, Digits, Symbol;
    Symbols();
    DigitsShown(left);
    var d := Render(Digits(left));
    LengthShown(Digits(left));
    RenderOne(Word("0"));
    CompareShown(Call("length", Digits(left)), Gt, ZERO);
    CallOneText("luhn_check", Digits(left));
    InfixText(Infix(Call("length", Digits(left)), Key(KCmp(Gt)), ZERO), KAnd, Call("luhn_check", Digits(left)));
    ZeroTests("length(" + d);
    LuhnWords("length(" + d, d);
  }

  lemma LuhnWords(x: string, d: string)
    ensures x + ") > 0" + (" " + Spelling(KAnd) + " ") + (("luhn_check" + "(") + d + ")")
            == x + ") > 0 AND luhn_check(" + d + ")"
  {
    var both, f := " " + Spelling(KAnd) + " ", "luhn_check" + "(";
    Regroup(x, ") > 0", both);
    Regroup(x + (") > 0" + both), f + d, ")");
    Regroup(x + (") > 0" + both), f, d);
    Regroup(x, ") > 0" + both, f);
    assert ") > 0" + both + f == ") > 0 AND luhn_check(";
  }

  lemma RangePrints(left: Lexemes, op: RangeOp, v: Value, q: bool)
    ensures RangeSql(left, op, v, q).Some? == OperatorText(Render(left), Ranges(op), v, q).Some?
    ensures RangeSql(left, op, v, q).Some? ==>
              Render(RangeSql(left, op, v, q).value) == OperatorText(Render(left), Ranges(op), v, q).value
  {
    hide Render, BetweenSqlText, ListSqlText, BetweenSql, Call, Infix;
    match op
    case Between => BetweenPrints(left, v, q);
    case LengthBetween =>
      BetweenPrints(Call("length", left), v, q);
      LengthShown(left);
    case In => ListTestPrints(left, false, v, q);
    case NotIn => ListTestPrints(left, true, v, q);
  }

  /** Every operator's text is this text, and it raises alike. */
  lemma OperatorPrints(left: Lexemes, op: Operator, v: Value, q: bool)
    ensures RowSql(left, op, v, q).Some? == OperatorText(Render(left), op, v, q).Some?
    ensures RowSql(left, op, v, q).Some? ==>
              Render(RowSql(left, op, v, q).value) == OperatorText(Render(left), op, v, q).value
  {
    hide RangeSql, NullSql, CallSql, RegexSql, LengthSql, ShapeSql, ConstantSql, TimeSql, SentimentSql, LuhnSql,
         ValueSql, Infix, CompareText, NullText, CallOpText, RegexText, LengthText, ShapeText, ConstantText, TimeText,
         LuhnText;
    NothingShown();
    hide Render;
    match op
    case Compares(o) => ComparePrints(left, o, v, q);
    case Ranges(o) => RangePrints(left, o, v, q);
    case Nulls(o) => NullOpPrints(left, o, v);
    case Calls(o) => CallPrints(left, o, v);
    case Regexes(o) => RegexPrints(left, o, v);
    case Lengths(o) => LengthPrints(left, o, v);
    case Shapes(o) => ShapePrints(left, o);
    case Constants(o) => ConstantPrints(left, o, v);
    case Times(o) => TimePrints(left, o, v);
    case Sentiment(positive) => SentimentPrints(left, positive);
    case PassesLuhn => LuhnPrints(left);
    case Unknown =>
  }

  // ----- aggregates, rows, stacks -----

  lemma NullFlagShown(c: Lexemes)
    ensures Render(NullFlag(c)) == "CASE WHEN " + Render(c) + " IS NULL THEN 1 ELSE 0 END"
  {
    hide Render, Sp, IsNullSql;
    var head := Sp([Word("CASE")], [Word("WHEN")]);
    var test := IsNullSql(Sp(head, c));
    var one, other := Sp(Sp(test, [Word("THEN")]), [Word("1")]), Sp([Word("ELSE")], [Word("0")]);
    ShownWords();
    SpText([Word("CASE")], [Word("WHEN")]);
    SpText(head, c);
    IsNullShown(Sp(head, c));
    SpText(test, [Word("THEN")]);
    SpText(Sp(test, [Word("THEN")]), [Word("1")]);
    SpText([Word("ELSE")], [Word("0")]);
    SpText(other, [Word("END")]);
    SpText(one, Sp(other, [Word("END")]));
    FlagWords("CASE WHEN " + Render(c));
    assert "CASE" + " " + "WHEN" + " " == "CASE WHEN ";
  }

  lemma ShownWords()
    ensures Render([Word("CASE")]) == "CASE" && Render([Word("WHEN")]) == "WHEN" && Render([Word("THEN")]) == "THEN"
    ensures Render([Word("1")]) == "1" && Render([Word("0")]) == "0" && Render([Word("ELSE")]) == "ELSE"
    ensures Render([Word("END")]) == "END"
  {
    hide Render;
    RenderOne(Word("CASE"));
    RenderOne(Word("WHEN"));
    RenderOne(Word("THEN"));
    RenderOne(Word("1"));
    RenderOne(Word("0"));
    RenderOne(Word("ELSE"));
    RenderOne(Word("END"));
  }

  lemma FlagWords(x: string)
    ensures x + " IS NULL" + " " + "THEN" + " " + "1" + " " + ("ELSE" + " " + "0" + " " + "END")
            == x + " IS NULL THEN 1 ELSE 0 END"
  {
    Regroup(x, " IS NULL", " ");
    Regroup(x, " IS NULL" + " ", "THEN");
    Regroup(x, " IS NULL" + " " + "THEN", " ");
    Regroup(x, " IS NULL" + " " + "THEN" + " ", "1");
    Regroup(x, " IS NULL" + " " + "THEN" + " " + "1", " ");
    Regroup(x, " IS NULL" + " " + "THEN" + " " + "1" + " ", "ELSE" + " " + "0" + " " + "END");
    FlagTail();
  }

  lemma FlagTail()
    ensures " IS NULL" + " " + "THEN" + " " + "1" + " " + ("ELSE" + " " + "0" + " " + "END")
            == " IS NULL THEN 1 ELSE 0 END"
  {
  }

  lemma ShareShown(sum: Lexemes)
    ensures Render(Share(sum)) == "(" + Render(sum) + " * 1.0 / NULLIF(COUNT(*), 0))"
  {
    hide Render, Infix, Call, Comma, Brackets;
    var product := Infix(sum, Word("*"), [Word("1.0")]);
    var count := Call("COUNT", [Word("*")]);
    RenderOne(Word("1.0"));
    RenderOne(Word("0"));
    RenderOne(Word("*"));
    WordInfixText(sum, "*", [Word("1.0")]);
    CallOneText("COUNT", [Word("*")]);
    CallTwoText("NULLIF", count, [Word("0")]);
    WordInfixText(product, "/", Call("NULLIF", Comma(count, [Word("0")])));
    BracketsText(Infix(product, Word("/"), Call("NULLIF", Comma(count, [Word("0")]))));
    ShareWords(Render(sum));
  }

  lemma ShareWords(x: string)
    ensures "(" + (x + (" " + "*" + " ") + "1.0" + (" " + "/" + " ")
                   + (("NULLIF" + "(") + (("COUNT" + "(") + "*" + ")") + ", " + "0" + ")")) + ")"
            == "(" + x + " * 1.0 / NULLIF(COUNT(*), 0))"
  {
    var times, over := " " + "*" + " ", " " + "/" + " ";
    var quotient := ("NULLIF" + "(") + (("COUNT" + "(") + "*" + ")") + ", " + "0" + ")";
    Regroup(x, times, "1.0");
    Regroup(x, times + "1.0", over);
    Regroup(x, times + "1.0" + over, quotient);
    Regroup("(", x, times + "1.0" + over + quotient);
    Regroup("(" + x, times + "1.0" + over + quotient, ")");
    ShareTail();
  }

  lemma QuotientShows()
    ensures ("NULLIF" + "(") + (("COUNT" + "(") + "*" + ")") + ", " + "0" + ")" == "NULLIF(COUNT(*), 0)"
  {
    assert ("COUNT" + "(") + "*" + ")" == "COUNT(*)";
  }

  lemma ShareTail()
    ensures (" " + "*" + " ") + "1.0" + (" " + "/" + " ")
            + (("NULLIF" + "(") + (("COUNT" + "(") + "*" + ")") + ", " + "0" + ")") + ")"
            == " * 1.0 / NULLIF(COUNT(*), 0))"
  {
    QuotientShows();
    SharePieces();
  }

  lemma SharePieces()
    ensures (" " + "*" + " ") + "1.0" + (" " + "/" + " ") == " * 1.0 / "
    ensures " * 1.0 / " + "NULLIF(COUNT(*), 0)" + ")" == " * 1.0 / NULLIF(COUNT(*), 0))"
  {
  }

  lemma NullRatePrints(c: Lexemes)
    ensures Render(Share(Call("SUM", NullFlag(c)))) ==
            "(SUM(CASE WHEN " + Render(c) + " IS NULL THEN 1 ELSE 0 END) * 1.0 / NULLIF(COUNT(*), 0))"
  {
    hide Render, Share, Call, NullFlag;
    ShareShown(Call("SUM", NullFlag(c)));
    CallOneText("SUM", NullFlag(c));
    NullFlagShown(c);
    RateWords(Render(c));
  }

  lemma RateWords(x: string)
    ensures "(" + (("SUM" + "(") + ("CASE WHEN " + x + " IS NULL THEN 1 ELSE 0 END") + ")")
            + " * 1.0 / NULLIF(COUNT(*), 0))"
            == "(SUM(CASE WHEN " + x + " IS NULL THEN 1 ELSE 0 END) * 1.0 / NULLIF(COUNT(*), 0))"
  {
    RateHead();
    RateTail();
    var flag := " IS NULL THEN 1 ELSE 0 END";
    RateRegroups("SUM" + "(", "CASE WHEN ", x, flag, " * 1.0 / NULLIF(COUNT(*), 0))");
  }

  lemma RateHead()
    ensures "(" + (("SUM" + "(") + "CASE WHEN ") == "(SUM(CASE WHEN "
  {
  }

  lemma RateTail()
    ensures " IS NULL THEN 1 ELSE 0 END" + ")" == " IS NULL THEN 1 ELSE 0 END)"
    ensures " IS NULL THEN 1 ELSE 0 END)" + " * 1.0 / NULLIF(COUNT(*), 0))"
            == " IS NULL THEN 1 ELSE 0 END) * 1.0 / NULLIF(COUNT(*), 0))"
  {
  }

  lemma RateRegroups(sum: string, head: string, x: string, flag: string, share: string)
    ensures "(" + (sum + (head + x + flag) + ")") + share == "(" + (sum + head) + x + (flag + ")" + share)
  {
    Regroup(sum, head + x, flag);
    Regroup(sum, head, x);
    Regroup("(", sum + head + x + flag, ")");
    Regroup("(", sum + head + x, flag);
    Regroup("(", sum + head, x);
    Regroup("(" + (sum + head) + x, flag, ")");
    Regroup("(" + (sum + head) + x, flag + ")", share);
  }

  lemma DistinctPrints(c: Lexemes)
    ensures Render(Call("COUNT", Sp([Word("DISTINCT")], c))) == "COUNT(DISTINCT " + Render(c) + ")"
  {
    hide Render, Call, Sp;
    RenderOne(Word("DISTINCT"));
    SpText([Word("DISTINCT")], c);
    CallOneText("COUNT", Sp([Word("DISTINCT")], c));
    Regroup("COUNT" + "(", "DISTINCT" + " ", Render(c));
    assert "COUNT" + "(" + ("DISTINCT" + " ") == "COUNT(DISTINCT ";
  }

  lemma SimpleNames()
    ensures "COUNT" + "(" == "COUNT(" && "APPROX_COUNT_DISTINCT" + "(" == "APPROX_COUNT_DISTINCT("
    ensures "SUM" + "(" == "SUM(" && "AVG" + "(" == "AVG(" && "MIN" + "(" == "MIN(" && "MAX" + "(" == "MAX("
    ensures "MEDIAN" + "(" == "MEDIAN(" && "MODE" + "(" == "MODE("
    ensures "PERCENTILE" + "(" == "PERCENTILE(" && "PERCENTILE_APPROX" + "(" == "PERCENTILE_APPROX("
  {
  }

  lemma SpreadNames()
    ensures "STDDEV_POP" + "(" == "STDDEV_POP(" && "STDDEV_SAMP" + "(" == "STDDEV_SAMP("
    ensures "VAR_POP" + "(" == "VAR_POP(" && "VAR_SAMP" + "(" == "VAR_SAMP("
    ensures "BOOL_AND" + "(" == "BOOL_AND(" && "BOOL_OR" + "(" == "BOOL_OR(" && "ANY_VALUE" + "(" == "ANY_VALUE("
  {
  }

  lemma AggregatePrints(a: Aggregate, c: Lexemes, param: Option<string>)
    requires !a.UnknownAggregate?
    ensures Render(AggSql(a, c, param)) == AggregateText(a, Render(c), param)
  {
    hide Render, Call, Comma, Sp, Share, NullFlag;
    SimpleNames();
    SpreadNames();
    RenderOne(Word(GetOr(param, "0.5")));
    if a.CountDistinct? {
      DistinctPrints(c);
    } else if a.NullRate? {
      NullRatePrints(c);
    } else if a.Percentile? {
      CallTwoText("PERCENTILE", c, [Word(GetOr(param, "0.5"))]);
    } else if a.PercentileApprox? {
      CallTwoText("PERCENTILE_APPROX", c, [Word(GetOr(param, "0.5"))]);
    } else {
      CallOneText(AggName(a), c);
    }
  }

  lemma AggregateHasText(a: Aggregate, x: string, param: Option<string>)
    requires !a.UnknownAggregate?
    ensures AggregateText(a, x, param) != ""
  {
    match a
    case Percentile =>
      var p := if param.Some? then param.value else "0.5";
      assert AggregateText(a, x, param) == "PERCENTILE(" + x + ", " + p + ")";
    case _ =>
  }

  lemma TextNeedsLexemes(ls: Lexemes)
    requires Render(ls) != ""
    ensures ls != []
  {
  }

  lemma SpecPrints(spec: AggSpec, q: bool)
    ensures AggExpr(spec, q).Some? == SpecText(spec, q).Some?
    ensures AggExpr(spec, q).Some? ==> Render(AggExpr(spec, q).value) == SpecText(spec, q).value
    ensures AggExpr(spec, q).Some? ==> (AggExpr(spec, q).value == [] <==> SpecText(spec, q).value == "")
  {
    hide AggSql, AggregateText, Ref, ColumnSql;
    NothingShown();
    hide Render;
    if !spec.aggregate.UnknownAggregate? && spec.column != "" {
      ColumnPrints(spec.column, q);
      if Ref(spec.column, q).Some? {
        var c := Ref(spec.column, q).value;
        AggregatePrints(spec.aggregate, c, spec.param);
        AggregateHasText(spec.aggregate, Render(c), spec.param);
        TextNeedsLexemes(AggSql(spec.aggregate, c, spec.param));
      }
    }
  }

  // ----- a form with lexemes shows text -----

  lemma CompareHasText(x: string, op: CompareOp, v: Value, q: bool)
    ensures CompareText(x, op, v, q) != Some("")
  {
  }

  /** The operators without a form: an unknown name, or a validity test of a type that is no type. */
  predicate Formless(op: Operator, v: Value) {
    op.Unknown? || (op.Nulls? && (op.nulls.IsAValid? || op.nulls.IsNotAValid?) && !(v.Text? && v.s in CAST_TYPES))
  }

  lemma FormHasText(x: string, op: Operator, v: Value, q: bool)
    requires OperatorText(x, op, v, q) == Some("")
    ensures Formless(op, v)
  {
    hide OperandSql, OperandsSql, QuoteSql, Join;
    match op
    case Compares(o) => CompareHasText(x, o, v, q);
    case _ =>
  }

  lemma FormlessCompiles(left: Lexemes, op: Operator, v: Value, q: bool)
    requires Formless(op, v)
    ensures RowSql(left, op, v, q) == Some([])
  {
    CastTypes(v);
  }

  lemma AggregateRowPrints(row: Row, left: Lexemes, q: bool)
    requires row.Aggregated? && AggExpr(row.left, q) == Some(left) && left != []
    requires SpecText(row.left, q) == Some(Render(left)) && Render(left) != ""
    ensures CompileRow(row, q).Some? == RowText(row, q).Some?
    ensures CompileRow(row, q).Some? ==> Render(CompileRow(row, q).value) == RowText(row, q).value
    ensures CompileRow(row, q).Some? ==> (CompileRow(row, q).value == [] <==> RowText(row, q).value == "")
  {
    NothingShown();
    hide Render, AggExpr, SpecText, Infix, IsNullSql, IsNotNullSql, BetweenSql, Literal, QuoteSql, Symbol;
    var value := row.value;
    match row.operator
    case Compares(Cmp(c)) =>
      if value.Object? && value.aggregate.Some? {
        SpecPrints(value.aggregate.value, q);
        if AggExpr(value.aggregate.value, q).Some? {
          CompareShown(left, c, AggExpr(value.aggregate.value, q).value);
          SymbolSpaced(Render(left), Symbol(c));
        }
      } else {
        LiteralPrints(value);
        CompareShown(left, c, Literal(value));
        SymbolSpaced(Render(left), Symbol(c));
      }
    case Nulls(IsNull) => IsNullShown(left);
    case Nulls(IsNotNull) => IsNullShown(left);
    case Ranges(Between) =>
      LiteralPrints(Bounds(value).0);
      LiteralPrints(Bounds(value).1);
      BetweenShown(left, Literal(Bounds(value).0), Literal(Bounds(value).1));
      NullBounds(Render(left));
    case _ =>
  }

  lemma SymbolSpaced(x: string, c: string)
    ensures x + (" " + c + " ") == x + " " + c + " "
  {
    Regroup(x, " " + c, " ");
    Regroup(x, " ", c);
  }

  lemma NullBounds(x: string)
    ensures x + " BETWEEN " + "NULL" + " AND " + "NULL" == x + " BETWEEN NULL AND NULL" && QuoteSql(Null) == "NULL"
  {
    Regroup(x, " BETWEEN ", "NULL");
    Regroup(x, " BETWEEN " + "NULL", " AND ");
    Regroup(x, " BETWEEN " + "NULL" + " AND ", "NULL");
    assert " BETWEEN " + "NULL" + " AND " + "NULL" == " BETWEEN NULL AND NULL";
  }

  /** Every row's text is this text, and it raises alike. */
  lemma RowPrints(row: Row, q: bool)
    ensures CompileRow(row, q).Some? == RowText(row, q).Some?
    ensures CompileRow(row, q).Some? ==> Render(CompileRow(row, q).value) == RowText(row, q).value
    ensures CompileRow(row, q).Some? ==> (CompileRow(row, q).value == [] <==> RowText(row, q).value == "")
  {
    NothingShown();
    hide Render, RowSql, OperatorText, Ref, ColumnSql, AggExpr, SpecText;
    match row
    case NotAnObject =>
    case Single(column, op, value, _) =>
      ColumnPrints(column, q);
      if Ref(column, q).Some? {
        OperatorPrints(Ref(column, q).value, op, value, q);
        if OperatorText(ColumnSql(column, q).value, op, value, q) == Some("") {
          FormHasText(ColumnSql(column, q).value, op, value, q);
          FormlessCompiles(Ref(column, q).value, op, value, q);
        }
      }
    case Aggregated(spec, op, value, _) =>
      SpecPrints(spec, q);
      if AggExpr(spec, q).Some? && AggExpr(spec, q).value != [] {
        AggregateRowPrints(row, AggExpr(spec, q).value, q);
      }
  }

  // ----- the stack is printed so -----

  lemma CombinatorShows(w: string)
    ensures Show(AsWord(w)) == w
  {
  }

  lemma PartPrints(row: Row, i: nat, frag: Lexemes)
    ensures Render(Part(row, i, frag)) == if i == 0 then Render(frag) else Combinator(row) + " " + Render(frag)
  {
    hide Render, Sp;
    CombinatorShows(Combinator(row));
    RenderOne(AsWord(Combinator(row)));
    SpText([AsWord(Combinator(row))], frag);
  }

  lemma JoinCons(t: string, rest: seq<string>)
    ensures Join([t] + rest, " ") == if rest == [] then t else t + " " + Join(rest, " ")
  {
    assert ([t] + rest)[1..] == rest;
  }

  lemma {:induction false} PartsPrint(rows: seq<Row>, i: nat, q: bool)
    requires i <= |rows|
    ensures StackFrom(rows, i, q).Some? == PartTexts(rows, i, q).Some?
    ensures StackFrom(rows, i, q).Some? ==>
              && Render(StackFrom(rows, i, q).value) == Join(PartTexts(rows, i, q).value, " ")
              && (StackFrom(rows, i, q).value == [] <==> PartTexts(rows, i, q).value == [])
    decreases |rows| - i
  {
    NothingShown();
    hide Render, CompileRow, RowText, Part, Sp, Join;
    if i == |rows| {
      NothingJoined();
    } else {
      hide Combinator;
      RowPrints(rows[i], q);
      PartsPrint(rows, i + 1, q);
      if StackFrom(rows, i, q).Some? {
        var frag, rest := CompileRow(rows[i], q).value, StackFrom(rows, i + 1, q).value;
        if frag != [] {
          OnePartPrints(rows[i], i, frag, rest, PartTexts(rows, i + 1, q).value);
          PartTextsCons(rows, i, q);
        } else {
          PartTextsSkip(rows, i, q);
        }
      }
    }
  }

  lemma NothingJoined()
    ensures Join([], " ") == ""
  {
  }

  lemma PartTextsSkip(rows: seq<Row>, i: nat, q: bool)
    requires i < |rows| && PartTexts(rows, i, q).Some? && RowText(rows[i], q).value == ""
    ensures PartTexts(rows, i, q) == PartTexts(rows, i + 1, q)
  {
    hide RowText;
    assert [] + PartTexts(rows, i + 1, q).value == PartTexts(rows, i + 1, q).value;
  }

  lemma PartTextsCons(rows: seq<Row>, i: nat, q: bool)
    requires i < |rows| && PartTexts(rows, i, q).Some? && RowText(rows[i], q).value != ""
    ensures var text := RowText(rows[i], q).value;
            PartTexts(rows, i, q).value ==
            [if i == 0 then text else Combinator(rows[i]) + " " + text] + PartTexts(rows, i + 1, q).value
  {
    hide RowText;
  }

  /** A row's part in front of the later rows' text. */
  lemma OnePartPrints(row: Row, i: nat, frag: Lexemes, rest: Lexemes, later: seq<string>)
    requires frag != [] && Render(rest) == Join(later, " ") && (rest == [] <==> later == [])
    ensures var all := if rest == [] then Part(row, i, frag) else Sp(Part(row, i, frag), rest);
            var text := if i == 0 then Render(frag) else Combinator(row) + " " + Render(frag);
            all != [] && Render(all) == Join([text] + later, " ")
  {
    hide Render, Part, Sp, Join, Combinator;
    PartPrints(row, i, frag);
    PartNotEmpty(row, i, frag);
    JoinCons(Render(Part(row, i, frag)), later);
    SpText(Part(row, i, frag), rest);
    SpNotEmpty(Part(row, i, frag), rest);
  }

  /** Every stack's text is this text, and it raises alike. */
  lemma StackPrints(rows: seq<Row>, q: bool)
    ensures Stack(rows, q).Some? == StackText(rows, q).Some?
    ensures Stack(rows, q).Some? ==> Render(Stack(rows, q).value) == StackText(rows, q).value
  {
    hide StackFrom, PartTexts, Render;
    PartsPrint(rows, 0, q);
  }

  /** BETWEEN shows the operand's first two items, lower bound first, whatever follows them. */
  lemma BetweenStackPrints(c: string, s: string, t: string, more: seq<Value>, repr: string, combinator: string)
    requires c != "" && '.' !in c
    ensures var row := Single(c, Ranges(Between), List([Num(s), Num(t)] + more, repr), combinator);
            Stack([row], false).Some? &&
            Render(Stack([row], false).value) == "{{" + c + "}} BETWEEN " + s + " AND " + t
  {
    hide Render, Stack;
    var row := Single(c, Ranges(Between), List([Num(s), Num(t)] + more, repr), combinator);
    StackPrints([row], false);
    assert PartTexts([row], 1, false) == Some([]);
    var x := "{{" + c + "}}";
    assert RowText(row, false) == Some(x + " BETWEEN " + s + " AND " + t);
    assert StackText([row], false) == Some(x + " BETWEEN " + s + " AND " + t);
    Regroup("{{" + c, "}}", " BETWEEN ");
    assert "}}" + " BETWEEN " == "}} BETWEEN ";
  }
}
