/**
 Which rows write text that is read as it was meant. The compiler doubles quotes and leaves
 backslashes as they are, so a backslash can take a quote with it; interval texts go between
 quotes as they are, and column names between braces. The condition on a row is read off its
 columns and operands.
 */
module LowcodeLegible {
  import opened Text
  import opened SqlText
  import opened LowcodeRows

  // ----- text put together -----

  lemma LegibleAppend(a: Lexemes, b: Lexemes)
    ensures AllLegible(a + b) <==> AllLegible(a) && AllLegible(b)
  {
    assert forall l :: l in a + b <==> l in a || l in b;
  }

  lemma LegiblePlain(l: Lexeme)
    requires Legible(l)
    ensures AllLegible([l])
  {
  }

  lemma LegibleSp(a: Lexemes, b: Lexemes)
    ensures AllLegible(Sp(a, b)) <==> AllLegible(a) && AllLegible(b)
  {
    hide AllLegible;
    LegiblePlain(Space);
    LegibleAppend(a + [Space], b);
    LegibleAppend(a, [Space]);
  }

  lemma LegibleBrackets(a: Lexemes)
    ensures AllLegible(Brackets(a)) <==> AllLegible(a)
  {
    hide AllLegible;
    LegiblePlain(Punct('('));
    LegiblePlain(Punct(')'));
    LegibleAppend([Punct('(')] + a, [Punct(')')]);
    LegibleAppend([Punct('(')], a);
  }

  lemma LegibleCall(f: string, args: Lexemes)
    ensures AllLegible(Call(f, args)) <==> AllLegible(args)
  {
    hide AllLegible;
    LegiblePlain(Word(f));
    LegibleBrackets(args);
    LegibleAppend([Word(f)], Brackets(args));
  }

  lemma LegibleComma(a: Lexemes, b: Lexemes)
    ensures AllLegible(Comma(a, b)) <==> AllLegible(a) && AllLegible(b)
  {
    hide AllLegible;
    LegiblePlain(Punct(','));
    LegiblePlain(Space);
    LegibleAppend(a + [Punct(',')], [Space] + b);
    LegibleAppend(a, [Punct(',')]);
    LegibleAppend([Space], b);
  }

  lemma LegibleInfix(a: Lexemes, op: Lexeme, b: Lexemes)
    requires Legible(op)
    ensures AllLegible(Infix(a, op, b)) <==> AllLegible(a) && AllLegible(b)
  {
    hide AllLegible;
    LegiblePlain(op);
    LegibleSp(a, [op]);
    LegibleSp(Sp(a, [op]), b);
  }

  lemma LegibleNullTests(a: Lexemes)
    ensures AllLegible(IsNullSql(a)) <==> AllLegible(a)
    ensures AllLegible(IsNotNullSql(a)) <==> AllLegible(a)
  {
    hide AllLegible;
    LegiblePlain(Word("NULL"));
    LegiblePlain(Key(KIs));
    LegibleInfix(a, Key(KIs), [Word("NULL")]);
    LegibleSp(a, [Key(KIs)]);
    LegibleInfix(Sp(a, [Key(KIs)]), Key(KNot), [Word("NULL")]);
  }

  lemma LegibleBetween(a: Lexemes, lo: Lexemes, hi: Lexemes)
    ensures AllLegible(BetweenSql(a, lo, hi)) <==> AllLegible(a) && AllLegible(lo) && AllLegible(hi)
  {
    LegibleInfix(a, Key(KBetween), lo);
    LegibleInfix(Infix(a, Key(KBetween), lo), Key(KAnd), hi);
  }

  // ----- columns and operands -----

  /** A dotted path, which is quoted, or a name whose placeholder closes where it should. */
  predicate ColumnLegible(column: string) {
    '.' in column || Enclosed(column)
  }

  /** `_quote` writes a literal that ends where it should. */
  predicate LiteralLegible(v: Value) {
    match v
    case Text(s) => Sealed(s)
    case List(_, repr) => Sealed(repr)
    case Object(_, _, _, _, repr) => Sealed(repr)
    case _ => true
  }

  /** The same for an operand that may be a column reference. */
  predicate OperandLegible(v: Value) {
    if v.Object? && v.column != "" then ColumnLegible(v.column) else LiteralLegible(v)
  }

  /** An interval's quotes are not doubled. */
  predicate IntervalLegible(v: Value) {
    '\'' !in IntervalText(v) && Sealed(IntervalText(v))
  }

  /** What an operator writes from its operand ends where it should. */
  predicate OperatorLegible(op: Operator, value: Value) {
    match op
    case Compares(_) => OperandLegible(value)
    case Ranges(Between) => OperandLegible(Bounds(value).0) && OperandLegible(Bounds(value).1)
    case Ranges(LengthBetween) => OperandLegible(Bounds(value).0) && OperandLegible(Bounds(value).1)
    case Ranges(_) => forall x <- ItemsOf(value) :: OperandLegible(x)
    case Calls(_) => LiteralLegible(value)
    case Regexes(MatchesRegex) => LiteralLegible(value)
    case Regexes(DoesNotMatchRegex) => LiteralLegible(value)
    case Lengths(HasLength) => LiteralLegible(value)
    case Lengths(IsLongerThan) => LiteralLegible(value)
    case Lengths(IsShorterThan) => LiteralLegible(value)
    case Constants(IsMultipleOf) => LiteralLegible(value)
    case Times(IsInLast) => IntervalLegible(value)
    case _ => true
  }

  /** What an aggregated row writes to the right of its aggregate ends where it should. */
  predicate AggregateOperandLegible(op: Operator, value: Value) {
    match op
    case Compares(Cmp(_)) =>
      if value.Object? && value.aggregate.Some? then
        value.aggregate.value.aggregate.UnknownAggregate? || ColumnLegible(value.aggregate.value.column)
      else LiteralLegible(value)
    case Ranges(Between) => LiteralLegible(Bounds(value).0) && LiteralLegible(Bounds(value).1)
    case _ => true
  }

  /** What the row writes in quotes and braces all ends where it should. */
  predicate RowLegible(row: Row) {
    match row
    case NotAnObject => true
    case Single(column, op, value, _) => ColumnLegible(column) && OperatorLegible(op, value)
    case Aggregated(spec, op, value, _) => ColumnLegible(spec.column) && AggregateOperandLegible(op, value)
  }

  lemma {:induction false} QuotePartsLegible(parts: seq<string>)
    requires parts != []
    ensures AllLegible(QuoteParts(parts))
  {
    if |parts| > 1 {
      QuotePartsLegible(parts[1..]);
    }
  }

  lemma InputViewLegible()
    ensures AllLegible([Slot(INPUT_VIEW), Word(".")])
  {
    NoBraceEncloses(INPUT_VIEW);
  }

  lemma RefIsLegibleIff(column: string, q: bool)
    requires Ref(column, q).Some?
    ensures AllLegible(Ref(column, q).value) <==> ColumnLegible(column)
  {
    if '.' in column {
      QuotePartsLegible(SplitOn(column, '.'));
    } else {
      var ls := [Slot(column)];
      assert AllLegible(ls) <==> ColumnLegible(column) by {
        assert ls[0] in ls;
      }
      hide AllLegible;
      InputViewLegible();
      LegibleAppend([Slot(INPUT_VIEW), Word(".")], ls);
      assert [Slot(INPUT_VIEW), Word("."), Slot(column)] == [Slot(INPUT_VIEW), Word(".")] + ls;
    }
  }

  lemma LiteralIsLegibleIff(v: Value)
    ensures AllLegible(Literal(v)) <==> LiteralLegible(v)
  {
    var ls := Literal(v);
    assert |ls| == 1 && ls[0] in ls;
  }

  lemma OperandIsLegibleIff(v: Value, q: bool)
    requires ValueSql(v, q).Some?
    ensures AllLegible(ValueSql(v, q).value) <==> OperandLegible(v)
  {
    hide AllLegible, LiteralLegible, ColumnLegible;
    if v.Object? && v.column != "" {
      RefIsLegibleIff(v.column, q);
    } else {
      LiteralIsLegibleIff(v);
    }
  }

  lemma {:induction false} ListIsLegibleIff(vs: seq<Value>, q: bool)
    requires QuoteList(vs, q).Some?
    ensures AllLegible(QuoteList(vs, q).value) <==> forall x <- vs :: OperandLegible(x)
  {
    if vs != [] {
      hide AllLegible, OperandLegible, ValueSql;
      OperandIsLegibleIff(vs[0], q);
      assert forall x :: x in vs <==> x == vs[0] || x in vs[1..];
      if |vs| > 1 {
        ListIsLegibleIff(vs[1..], q);
        LegibleComma(ValueSql(vs[0], q).value, QuoteList(vs[1..], q).value);
      }
    }
  }

  // ----- the operators -----

  /** A value without quotes whose last character is no backslash. */
  lemma {:induction false} QuietSealed(v: string)
    requires '\'' !in v && (v != "" ==> v[|v| - 1] != '\\')
    ensures Sealed(v)
  {
    if v != "" {
      if v[0] != '\\' {
        QuietSealed(v[1..]);
      } else {
        assert v[1] in v;
        QuietSealed(v[2..]);
      }
    }
  }

  lemma FixedPatternsSealed()
    ensures AllLegible([Str("^[0-9]+$")]) && AllLegible([Str(UUID)]) && AllLegible([Str(IPV4)])
    ensures AllLegible([Str("[^0-9]")]) && AllLegible([Str("")])
  {
    QuietSealed("^[0-9]+$");
    QuietSealed("[^0-9]");
    UuidSealed();
    Ipv4Sealed();
  }

  lemma UuidSealed()
    ensures Sealed(UUID)
  {
    assert '\'' !in HEX;
    assert UUID[|UUID| - 1] == '$';
    QuietSealed(UUID);
  }

  lemma Ipv4Sealed()
    ensures Sealed(IPV4)
  {
    assert '\'' !in OCTET;
    assert IPV4[|IPV4| - 1] == '$';
    QuietSealed(IPV4);
  }

  lemma RangeIsLegibleIff(left: Lexemes, op: RangeOp, value: Value, q: bool)
    requires RangeSql(left, op, value, q).Some?
    ensures AllLegible(RangeSql(left, op, value, q).value) <==> AllLegible(left) && OperatorLegible(Ranges(op), value)
  {
    hide AllLegible, OperandLegible, ValueSql, QuoteList, BetweenSql;
    match op
    case In =>
      ListIsLegibleIff(ItemsOf(value), q);
      LegibleBrackets(QuoteList(ItemsOf(value), q).value);
      LegibleInfix(left, Key(KIn), Brackets(QuoteList(ItemsOf(value), q).value));
    case NotIn =>
      LegiblePlain(Key(KNot));
      LegibleSp(left, [Key(KNot)]);
      ListIsLegibleIff(ItemsOf(value), q);
      LegibleBrackets(QuoteList(ItemsOf(value), q).value);
      LegibleInfix(Sp(left, [Key(KNot)]), Key(KIn), Brackets(QuoteList(ItemsOf(value), q).value));
    case _ =>
      var (lo, hi) := Bounds(value);
      OperandIsLegibleIff(lo, q);
      OperandIsLegibleIff(hi, q);
      LegibleCall("length", left);
      LegibleBetween(left, ValueSql(lo, q).value, ValueSql(hi, q).value);
      LegibleBetween(Call("length", left), ValueSql(lo, q).value, ValueSql(hi, q).value);
  }

  lemma NullIsLegibleIff(left: Lexemes, op: NullOp, value: Value)
    requires NullSql(left, op, value) != []
    ensures AllLegible(NullSql(left, op, value)) <==> AllLegible(left)
  {
    LegiblePlain(Word(ValidityType(value)));
    LegibleInfix(left, Word("AS"), [Word(ValidityType(value))]);
    LegibleCall("TRY_CAST", Infix(left, Word("AS"), [Word(ValidityType(value))]));
    LegibleNullTests(left);
    LegibleNullTests(TryCast(left, value));
  }

  lemma CallIsLegibleIff(left: Lexemes, op: CallOp, value: Value)
    ensures AllLegible(CallSql(left, op, value)) <==> AllLegible(left) && LiteralLegible(value)
  {
    hide AllLegible, LiteralLegible, Literal;
    var args := Comma(left, Literal(value));
    LiteralIsLegibleIff(value);
    LegibleComma(left, Literal(value));
    LegibleCall("contains", args);
    LegibleCall("startswith", args);
    LegibleCall("endswith", args);
    LegiblePlain(Key(KNot));
    LegibleSp([Key(KNot)], Call("contains", args));
  }

  lemma RegexIsLegibleIff(left: Lexemes, op: RegexOp, value: Value)
    ensures AllLegible(RegexSql(left, op, value)) <==> AllLegible(left) && OperatorLegible(Regexes(op), value)
  {
    hide AllLegible, LiteralLegible, Literal;
    LiteralIsLegibleIff(value);
    FixedPatternsSealed();
    LegibleInfix(left, Word("RLIKE"), Literal(value));
    LegibleBrackets(Infix(left, Word("RLIKE"), Literal(value)));
    LegiblePlain(Key(KNot));
    LegibleSp([Key(KNot)], Brackets(Infix(left, Word("RLIKE"), Literal(value))));
    LegibleInfix(left, Word("RLIKE"), [Str("^[0-9]+$")]);
    LegibleInfix(left, Word("RLIKE"), [Str(UUID)]);
    LegibleInfix(left, Word("RLIKE"), [Str(IPV4)]);
  }

  lemma LengthIsLegibleIff(left: Lexemes, op: LengthOp, value: Value)
    ensures AllLegible(LengthSql(left, op, value)) <==> AllLegible(left) && OperatorLegible(Lengths(op), value)
  {
    hide AllLegible, LiteralLegible, Literal;
    var c := Key(KCmp(match op case HasLength => Eq case IsShorterThan => Lt case IsEmpty => Eq case _ => Gt));
    LiteralIsLegibleIff(value);
    LegiblePlain(Word("0"));
    LegibleCall("length", left);
    LegibleCall("trim", left);
    LegibleCall("length", Call("trim", left));
    LegibleInfix(Call("length", left), c, Literal(value));
    LegibleInfix(Call("length", Call("trim", left)), c, ZERO);
  }

  lemma ShapeIsLegibleIff(left: Lexemes, op: ShapeOp)
    ensures AllLegible(ShapeSql(left, op)) <==> AllLegible(left)
  {
    hide AllLegible;
    var f := match op
             case IsUppercase => "upper" case IsLowercase => "lower" case IsWholeNumber => "round" case _ => "TRIM";
    LegibleCall(f, left);
    LegibleInfix(left, Key(KCmp(if op.HasOuterSpace? then Ne else Eq)), Call(f, left));
  }

  lemma ConstantIsLegibleIff(left: Lexemes, op: ConstantOp, value: Value)
    ensures AllLegible(ConstantSql(left, op, value)) <==> AllLegible(left) && OperatorLegible(Constants(op), value)
  {
    hide AllLegible, LiteralLegible, Literal;
    if op.IsMultipleOf? {
      LiteralIsLegibleIff(value);
      LegiblePlain(Word("0"));
      LegibleComma(left, Literal(value));
      LegibleCall("mod", Comma(left, Literal(value)));
      LegibleInfix(Call("mod", Comma(left, Literal(value))), Key(KCmp(Eq)), ZERO);
    } else {
      var c := Key(KCmp(match op case IsPositive => Gt case IsNegative => Lt case IsNonNegative => Ge case _ => Eq));
      var w := Word(match op case IsTrue => "TRUE" case IsFalse => "FALSE" case _ => "0");
      LegiblePlain(w);
      LegibleInfix(left, c, [w]);
    }
  }

  lemma EarliestIsLegibleIff(value: Value)
    ensures AllLegible(EarliestSql(value)) <==> IntervalLegible(value)
    ensures AllLegible(NOW)
  {
    var i := IntervalLiteral(value);
    assert AllLegible([i]) <==> IntervalLegible(value) by {
      assert i in [i];
    }
    LegiblePlain(Word("INTERVAL"));
    LegibleSp([Word("INTERVAL")], [i]);
    LegibleCall("current_timestamp", []);
    LegibleInfix(NOW, Word("-"), Sp([Word("INTERVAL")], [i]));
  }

  lemma TimeIsLegibleIff(left: Lexemes, op: TimeOp, value: Value)
    ensures AllLegible(TimeSql(left, op, value)) <==> AllLegible(left) && OperatorLegible(Times(op), value)
  {
    EarliestIsLegibleIff(value);
    hide AllLegible, IntervalLegible, EarliestSql;
    LegibleInfix(left, Key(KCmp(Ge)), EarliestSql(value));
    LegibleInfix(left, Key(KCmp(Gt)), NOW);
    LegibleInfix(left, Key(KCmp(Lt)), NOW);
    LegibleCall("to_date", left);
    TodayLegible();
    LegibleInfix(Call("to_date", left), Key(KCmp(Eq)), Call("current_date", []));
  }

  lemma TodayLegible()
    ensures AllLegible(Call("current_date", []))
  {
    LegibleCall("current_date", []);
  }

  lemma SentimentIsLegibleIff(left: Lexemes, positive: bool)
    ensures AllLegible(SentimentSql(left, positive)) <==> AllLegible(left)
  {
    var mood := [Str(if positive then "positive" else "negative")];
    QuietSealed(mood[0].value);
    LegibleCall("ai_analyze_sentiment", left);
    LegibleInfix(Call("ai_analyze_sentiment", left), Key(KCmp(Eq)), mood);
  }

  lemma LuhnIsLegibleIff(left: Lexemes)
    ensures AllLegible(LuhnSql(left)) <==> AllLegible(left)
  {
    hide AllLegible;
    var digits := Comma(Comma(left, [Str("[^0-9]")]), [Str("")]);
    FixedPatternsSealed();
    LegibleComma(left, [Str("[^0-9]")]);
    LegibleComma(Comma(left, [Str("[^0-9]")]), [Str("")]);
    LegibleCall("regexp_replace", digits);
    LegibleCall("length", Digits(left));
    LegibleCall("luhn_check", Digits(left));
    LegiblePlain(Word("0"));
    LegibleInfix(Call("length", Digits(left)), Key(KCmp(Gt)), ZERO);
    LegibleInfix(Infix(Call("length", Digits(left)), Key(KCmp(Gt)), ZERO), Key(KAnd), Call("luhn_check", Digits(left)));
  }

  lemma ComparisonIsLegibleIff(left: Lexemes, op: CompareOp, value: Value, q: bool)
    requires ValueSql(value, q).Some?
    ensures AllLegible(Infix(left, Key(KCmp(ComparisonOf(op))), ValueSql(value, q).value))
            <==> AllLegible(left) && OperandLegible(value)
  {
    OperandIsLegibleIff(value, q);
    LegibleInfix(left, Key(KCmp(ComparisonOf(op))), ValueSql(value, q).value);
  }

  lemma OperatorIsLegibleIff(left: Lexemes, op: Operator, value: Value, q: bool)
    requires RowSql(left, op, value, q).Some? && RowSql(left, op, value, q).value != []
    ensures AllLegible(RowSql(left, op, value, q).value) <==> AllLegible(left) && OperatorLegible(op, value)
  {
    hide AllLegible, RangeSql, NullSql, CallSql, RegexSql, LengthSql, ShapeSql, ConstantSql, TimeSql, SentimentSql,
         LuhnSql, ValueSql, Infix, OperandLegible, LiteralLegible, IntervalLegible;
    match op
    case Compares(o) => ComparisonIsLegibleIff(left, o, value, q);
    case Ranges(o) => RangeIsLegibleIff(left, o, value, q);
    case Nulls(o) => NullIsLegibleIff(left, o, value);
    case Calls(o) => CallIsLegibleIff(left, o, value);
    case Regexes(o) => RegexIsLegibleIff(left, o, value);
    case Lengths(o) => LengthIsLegibleIff(left, o, value);
    case Shapes(o) => ShapeIsLegibleIff(left, o);
    case Constants(o) => ConstantIsLegibleIff(left, o, value);
    case Times(o) => TimeIsLegibleIff(left, o, value);
    case Sentiment(positive) => SentimentIsLegibleIff(left, positive);
    case PassesLuhn => LuhnIsLegibleIff(left);
  }

  lemma NothingIsLegible()
    ensures AllLegible([])
  {
  }

  // ----- aggregates and rows -----

  lemma NullFlagIsLegibleIff(c: Lexemes)
    ensures AllLegible(NullFlag(c)) <==> AllLegible(c)
  {
    hide AllLegible;
    var head := Sp([Word("CASE")], [Word("WHEN")]);
    var test := IsNullSql(Sp(head, c));
    var one, other := Sp(Sp(test, [Word("THEN")]), [Word("1")]), Sp([Word("ELSE")], [Word("0")]);
    forall w
      ensures AllLegible([Word(w)])
    {
      LegiblePlain(Word(w));
    }
    LegibleSp([Word("CASE")], [Word("WHEN")]);
    LegibleSp(head, c);
    LegibleNullTests(Sp(head, c));
    LegibleSp(test, [Word("THEN")]);
    LegibleSp(Sp(test, [Word("THEN")]), [Word("1")]);
    LegibleSp([Word("ELSE")], [Word("0")]);
    LegibleSp(other, [Word("END")]);
    LegibleSp(one, Sp(other, [Word("END")]));
  }

  lemma ShareIsLegibleIff(sum: Lexemes)
    ensures AllLegible(Share(sum)) <==> AllLegible(sum)
  {
    hide AllLegible;
    var product := Infix(sum, Word("*"), [Word("1.0")]);
    var count := Comma(Call("COUNT", [Word("*")]), [Word("0")]);
    forall w
      ensures AllLegible([Word(w)])
    {
      LegiblePlain(Word(w));
    }
    LegibleInfix(sum, Word("*"), [Word("1.0")]);
    LegibleCall("COUNT", [Word("*")]);
    LegibleComma(Call("COUNT", [Word("*")]), [Word("0")]);
    LegibleCall("NULLIF", count);
    LegibleInfix(product, Word("/"), Call("NULLIF", count));
    LegibleBrackets(Infix(product, Word("/"), Call("NULLIF", count)));
  }

  lemma AggregateIsLegibleIff(spec: AggSpec, q: bool)
    requires AggExpr(spec, q).Some? && AggExpr(spec, q).value != []
    ensures AllLegible(AggExpr(spec, q).value) <==> ColumnLegible(spec.column)
  {
    hide AllLegible, ColumnLegible;
    var a, c := spec.aggregate, Ref(spec.column, q).value;
    var p := [Word(GetOr(spec.param, "0.5"))];
    RefIsLegibleIff(spec.column, q);
    NullFlagIsLegibleIff(c);
    LegibleCall("SUM", NullFlag(c));
    ShareIsLegibleIff(Call("SUM", NullFlag(c)));
    LegiblePlain(Word("DISTINCT"));
    LegibleSp([Word("DISTINCT")], c);
    LegibleCall("COUNT", Sp([Word("DISTINCT")], c));
    LegiblePlain(p[0]);
    LegibleComma(c, p);
    LegibleCall("PERCENTILE", Comma(c, p));
    LegibleCall("PERCENTILE_APPROX", Comma(c, p));
    LegibleCall(AggName(a), c);
  }

  /** A row's text is legible exactly when its columns and operands are. */
  lemma RowIsLegibleIff(row: Row, q: bool)
    requires CompileRow(row, q).Some? && CompileRow(row, q).value != []
    ensures AllLegible(CompileRow(row, q).value) <==> RowLegible(row)
  {
    hide AllLegible, Ref, AggExpr, RowSql, OperatorLegible, AggregateOperandLegible, ColumnLegible, Infix, IsNullSql,
         IsNotNullSql, BetweenSql;
    match row
    case Single(column, op, value, _) =>
      RefIsLegibleIff(column, q);
      OperatorIsLegibleIff(Ref(column, q).value, op, value, q);
    case Aggregated(spec, op, value, _) =>
      AggregateIsLegibleIff(spec, q);
      AggregateRowIsLegibleIff(row, AggExpr(spec, q).value, q);
  }

  lemma NoRightHandSide(left: Lexemes, op: Lexeme)
    requires Legible(op)
    ensures AllLegible(Infix(left, op, [])) <==> AllLegible(left)
  {
    NothingIsLegible();
    LegibleInfix(left, op, []);
  }

  lemma AggregateRowIsLegibleIff(row: Row, left: Lexemes, q: bool)
    requires row.Aggregated? && AggExpr(row.left, q) == Some(left) && left != []
    requires CompileRow(row, q).Some? && CompileRow(row, q).value != []
    ensures AllLegible(CompileRow(row, q).value)
            <==> AllLegible(left) && AggregateOperandLegible(row.operator, row.value)
  {
    hide AllLegible, LiteralLegible, ColumnLegible, Ref, AggSql, Infix, IsNullSql, IsNotNullSql, BetweenSql;
    var value := row.value;
    match row.operator
    case Compares(Cmp(c)) =>
      if value.Object? && value.aggregate.Some? {
        var right := AggExpr(value.aggregate.value, q).value;
        NoRightHandSide(left, Key(KCmp(c)));
        if right != [] {
          AggregateIsLegibleIff(value.aggregate.value, q);
          LegibleInfix(left, Key(KCmp(c)), right);
        } else {
          EmptyColumnLegible(value.aggregate.value, q);
        }
      } else {
        LiteralIsLegibleIff(value);
        LegibleInfix(left, Key(KCmp(c)), Literal(value));
      }
    case Ranges(Between) =>
      LiteralIsLegibleIff(Bounds(value).0);
      LiteralIsLegibleIff(Bounds(value).1);
      LegibleBetween(left, Literal(Bounds(value).0), Literal(Bounds(value).1));
    case _ => LegibleNullTests(left);
  }

  /** An aggregate without a form writes nothing. */
  lemma EmptyColumnLegible(spec: AggSpec, q: bool)
    requires AggExpr(spec, q) == Some([])
    ensures spec.aggregate.UnknownAggregate? || ColumnLegible(spec.column)
  {
    if !spec.aggregate.UnknownAggregate? && spec.column != "" {
      AggregateNotEmpty(spec, q);
    }
  }

  lemma AggregateNotEmpty(spec: AggSpec, q: bool)
    requires !spec.aggregate.UnknownAggregate? && spec.column != "" && AggExpr(spec, q).Some?
    ensures AggExpr(spec, q).value != []
  {
    hide NullFlag;
    var ls := AggExpr(spec, q).value;
    assert ls[0].Word? || ls[0].Punct?;
  }
}
