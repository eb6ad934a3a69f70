/**
 The row stack as a whole: the flat, unbracketed predicate text is read as the
 OR of the maximal AND-runs of its rows, and the folded `NOT (...)` is its negation.
 */
module LowcodeStack {
  import opened Text
  import opened SqlText
  import opened SqlReader
  import opened LowcodeRows
  import opened LowcodeLegible
  import opened LowcodeMeaning
  import opened Connectives

  // ----- aggregated rows -----

  lemma PlainAggregateWords(a: Aggregate)
    requires a in {Count, CountDistinct, Sum, NullRate, Avg, Min, Max, Median, Mode}
    ensures IsIdentifier(AggName(a)) && AsWord(AggName(a)) == Word(AggName(a))
  {
  }

  lemma DeviationWords(a: Aggregate)
    requires a in {Stddev, StddevSamp}
    ensures IsIdentifier(AggName(a)) && AsWord(AggName(a)) == Word(AggName(a))
  {
  }

  lemma VarianceWords(a: Aggregate)
    requires a in {Variance, VarSamp}
    ensures IsIdentifier(AggName(a)) && AsWord(AggName(a)) == Word(AggName(a))
  {
  }

  lemma ChoiceAggregateWords(a: Aggregate)
    requires a in {BoolAnd, BoolOr, AnyValue}
    ensures IsIdentifier(AggName(a)) && AsWord(AggName(a)) == Word(AggName(a))
  {
  }

  lemma QuantileWords(a: Aggregate)
    requires a in {Percentile, PercentileApprox}
    ensures IsIdentifier(AggName(a)) && AsWord(AggName(a)) == Word(AggName(a))
  {
  }

  lemma ApproxCountWord()
    ensures IsIdentifier(AggName(ApproxCountDistinct))
    ensures AsWord(AggName(ApproxCountDistinct)) == Word(AggName(ApproxCountDistinct))
  {
  }

  lemma AggregateWord(a: Aggregate)
    requires !a.UnknownAggregate?
    ensures IsIdentifier(AggName(a)) && AsWord(AggName(a)) == Word(AggName(a))
  {
    if a in {Count, CountDistinct, Sum, NullRate, Avg, Min, Max, Median, Mode} {
      PlainAggregateWords(a);
    } else if a in {Stddev, StddevSamp} {
      DeviationWords(a);
    } else if a in {Variance, VarSamp} {
      VarianceWords(a);
    } else if a in {BoolAnd, BoolOr, AnyValue} {
      ChoiceAggregateWords(a);
    } else if a.ApproxCountDistinct? {
      ApproxCountWord();
    } else {
      QuantileWords(a);
    }
  }

  lemma ParamPiece(param: Option<string>)
    requires param.Some? ==> NumberText(param.value)
    ensures Args([Word(GetOr(param, "0.5"))])
  {
    NumberWord(GetOr(param, "0.5"));
    WordPiece(GetOr(param, "0.5"));
    PieceIsArgs([Word(GetOr(param, "0.5"))]);
  }

  lemma WordArgs(w: string)
    requires Lexable(Word(w))
    ensures Args([Word(w)])
  {
    WordPiece(w);
    PieceIsArgs([Word(w)]);
  }

  lemma KeyArgs(k: Keyword)
    ensures Args([Key(k)])
  {
    OneToken(Key(k));
  }

  lemma InfixArgs(a: Lexemes, op: Lexeme, b: Lexemes)
    requires Args(a) && Args(b) && Args([op])
    ensures Args(Infix(a, op, b))
  {
    SpArgs(a, [op]);
    SpArgs(Sp(a, [op]), b);
  }

  lemma CaseWhen()
    ensures Args([Word("CASE")]) && Args([Word("WHEN")]) && Args([Word("THEN")])
  {
    hide Lexable, Args;
    IdentWord("CASE");
    IdentWord("WHEN");
    IdentWord("THEN");
    WordArgs("CASE");
    WordArgs("WHEN");
    WordArgs("THEN");
  }

  lemma ElseEnd()
    ensures Args([Word("ELSE")]) && Args([Word("END")])
  {
    hide Lexable, Args;
    IdentWord("ELSE");
    IdentWord("END");
    WordArgs("ELSE");
    WordArgs("END");
  }

  lemma CaseWords()
    ensures Args([Word("CASE")]) && Args([Word("WHEN")]) && Args([Word("THEN")])
    ensures Args([Word("ELSE")]) && Args([Word("END")]) && Args([Word("NULL")])
    ensures Args([Word("1")]) && Args([Word("0")])
  {
    hide Lexable, Args;
    CaseWhen();
    ElseEnd();
    OperandWords();
    WordArgs("NULL");
    NumberWord("1");
    WordArgs("1");
    WordArgs("0");
  }

  lemma NullFlagArgs(c: Lexemes)
    requires Args(c)
    ensures Args(NullFlag(c))
  {
    hide Args, Piece;
    CaseWords();
    KeyArgs(KIs);
    var a := Sp([Word("CASE")], [Word("WHEN")]);
    SpArgs([Word("CASE")], [Word("WHEN")]);
    SpArgs(a, c);
    InfixArgs(Sp(a, c), Key(KIs), [Word("NULL")]);
    var b := IsNullSql(Sp(a, c));
    SpArgs(b, [Word("THEN")]);
    SpArgs(Sp(b, [Word("THEN")]), [Word("1")]);
    SpArgs([Word("ELSE")], [Word("0")]);
    SpArgs(Sp([Word("ELSE")], [Word("0")]), [Word("END")]);
    SpArgs(Sp(Sp(b, [Word("THEN")]), [Word("1")]), Sp(Sp([Word("ELSE")], [Word("0")]), [Word("END")]));
  }

  lemma RateWords()
    ensures Args([Word("*")]) && Args([Word("/")]) && Args([Word("1.0")]) && Args([Word("0")])
  {
    hide Args, Piece;
    NumberWord("1.0");
    OperandWords();
    WordArgs("*");
    WordArgs("/");
    WordArgs("1.0");
    WordArgs("0");
  }

  lemma CallArgs(f: string, args: Lexemes)
    requires Args(args) && IsIdentifier(f) && AsWord(f) == Word(f)
    ensures Args(Call(f, args))
  {
    CallPiece(f, args);
    PieceIsArgs(Call(f, args));
  }

  lemma SumArgs(c: Lexemes)
    requires Args(c)
    ensures Args(Call("SUM", NullFlag(c)))
  {
    hide Args, Piece;
    NullFlagArgs(c);
    CallArgs("SUM", NullFlag(c));
  }

  lemma CountArgs()
    ensures Args(Call("NULLIF", Comma(Call("COUNT", [Word("*")]), [Word("0")])))
  {
    hide Args, Piece;
    RateWords();
    CallArgs("COUNT", [Word("*")]);
    CommaArgs(Call("COUNT", [Word("*")]), [Word("0")]);
    CallArgs("NULLIF", Comma(Call("COUNT", [Word("*")]), [Word("0")]));
  }

  lemma NullRatePiece(c: Lexemes)
    requires Args(c)
    ensures Piece(AggSql(NullRate, c, None))
  {
    hide Args, Piece;
    RateWords();
    SumArgs(c);
    CountArgs();
    var sum, count := Call("SUM", NullFlag(c)), Call("NULLIF", Comma(Call("COUNT", [Word("*")]), [Word("0")]));
    InfixArgs(sum, Word("*"), [Word("1.0")]);
    InfixArgs(Infix(sum, Word("*"), [Word("1.0")]), Word("/"), count);
    BracketsPiece(Infix(Infix(sum, Word("*"), [Word("1.0")]), Word("/"), count));
  }

  lemma QuantilePiece(a: Aggregate, c: Lexemes, param: Option<string>)
    requires a.Percentile? || a.PercentileApprox?
    requires Args(c) && (param.Some? ==> NumberText(param.value))
    ensures Piece(AggSql(a, c, param))
  {
    hide Args, Piece;
    var args := Comma(c, [Word(GetOr(param, "0.5"))]);
    ParamPiece(param);
    CommaArgs(c, [Word(GetOr(param, "0.5"))]);
    QuantileWords(a);
    CallPiece(AggName(a), args);
  }

  lemma DistinctPiece(c: Lexemes)
    requires Args(c)
    ensures Piece(AggSql(CountDistinct, c, None))
  {
    hide Args, Piece;
    IdentWord("DISTINCT");
    WordArgs("DISTINCT");
    SpArgs([Word("DISTINCT")], c);
    CallPiece("COUNT", Sp([Word("DISTINCT")], c));
  }

  lemma AggPiece(spec: AggSpec, q: bool)
    requires SpecOk(spec) && AggExpr(spec, q).Some? && AggExpr(spec, q).value != []
    ensures Piece(AggExpr(spec, q).value)
  {
    var a, c := spec.aggregate, Ref(spec.column, q).value;
    RefPiece(spec.column, q);
    PieceIsArgs(c);
    if a.CountDistinct? {
      DistinctPiece(c);
    } else if a.NullRate? {
      NullRatePiece(c);
    } else if a.Percentile? || a.PercentileApprox? {
      QuantilePiece(a, c, spec.param);
    } else {
      AggregateWord(a);
      CallPiece(AggName(a), c);
    }
  }

  // ----- one row -----

  /** The right-hand aggregate of a comparison, when the row names one. */
  predicate ComparesAggregates(row: Row) {
    row.Aggregated? && row.operator.Compares? && row.operator.compare.Cmp?
    && row.value.Object? && row.value.aggregate.Some?
  }

  /** A comparison with nothing on its right: the right-hand aggregate has no SQL form. */
  predicate Dangles(row: Row, q: bool) {
    ComparesAggregates(row) && AggExpr(row.value.aggregate.value, q) == Some([])
  }

  /** Rows whose text has no reading: a comparison with nothing on its right, or a list test
      without items. */
  predicate Unreadable(row: Row, q: bool) {
    Dangles(row, q) || (row.Single? && EmptyList(row.operator, row.value))
  }

  /** The intended condition of a row that compiles to something. */
  function RowMeaning(row: Row, q: bool, env: Env): Truth {
    match row
    case Single(column, op, value, _) =>
      (match Ref(column, q)
       case Some(left) => Meaning(left, op, value, q, env)
       case None => SqlReader.Unknown)
    case Aggregated(spec, op, value, _) =>
      (match AggExpr(spec, q)
       case Some(left) =>
         var x := Val(left, env);
         (match op
          case Compares(Cmp(c)) =>
            if value.Object? && value.aggregate.Some? then
              (match AggExpr(value.aggregate.value, q)
               case Some(right) => Compare(c, x, Val(right, env))
               case None => SqlReader.Unknown)
            else Compare(c, x, Val(Literal(value), env))
          case Nulls(IsNull) => Of(x.None?)
          case Nulls(IsNotNull) => Of(x.Some?)
          case Ranges(Between) => Within(x, Val(Literal(Bounds(value).0), env), Val(Literal(Bounds(value).1), env))
          case _ => SqlReader.Unknown)
       case None => SqlReader.Unknown)
    case NotAnObject => SqlReader.Unknown
  }

  /** A row's own reading, taken from its own fragment alone. */
  function Own(row: Row, q: bool, env: Env): Option<Truth> {
    if Unreadable(row, q) then None else Some(RowMeaning(row, q, env))
  }

  predicate Compiles(row: Row, q: bool) {
    CompileRow(row, q).Some? && CompileRow(row, q).value != []
  }

  lemma DanglingReads(left: Lexemes, c: Comparison, env: Env)
    requires Piece(left)
    ensures var ls := Infix(left, Key(KCmp(c)), []);
            Fragment(ls) && ReadOr(Tok(ls), env) == None
  {
    var op := Key(KCmp(c));
    var x := Tok(left);
    var ls := Infix(left, op, []);
    InfixTokens(left, op, []);
    assert Tok(ls) == x + [op];
    InfixSpaced(left, op, []);
    assert [op][1..] == [];
    ClosedAfterOperand(x, [op]);
    CutInert(AndLevel, x, [op], 0, false);
    OpInert(x, [op], 0);
    NotAGroup(x, [op]);
    assert (x + [op])[0] == x[0];
    assert Dangling(x + [op]);
    assert ReadNot(x + [op], env) == None;
    assert ReadOr(x + [op], env) == ReadAnd(x + [op], env) == ReadNot(x + [op], env);
  }

  /** The tokens of a row's fragment have the row's own reading. */
  lemma RowTokensRead(row: Row, q: bool, env: Env)
    requires RowOk(row) && Compiles(row, q)
    ensures Fragment(CompileRow(row, q).value)
    ensures ReadOr(Tok(CompileRow(row, q).value), env) == Own(row, q, env)
  {
    hide Fragment, Tok, Piece, Val, ReadOr, Ref, AggExpr, Literal, Compare, Within, Meaning, RowSql, Infix;
    match row
    case Single(column, op, value, _) =>
      RefPiece(column, q);
      EveryOperatorReads(Ref(column, q).value, op, value, q, env);
    case Aggregated(spec, op, value, _) =>
      var left := AggExpr(spec, q).value;
      AggPiece(spec, q);
      match op {
        case Compares(Cmp(c)) =>
          if value.Object? && value.aggregate.Some? {
            var right := AggExpr(value.aggregate.value, q).value;
            if right == [] {
              DanglingReads(left, c, env);
            } else {
              AggPiece(value.aggregate.value, q);
              ComparisonReads(left, c, right, env);
            }
          } else {
            LiteralPiece(value);
            ComparisonReads(left, c, Literal(value), env);
          }
        case Nulls(IsNull) => IsNullReads(left, env);
        case Nulls(IsNotNull) => IsNotNullReads(left, env);
        case Ranges(Between) =>
          LiteralPiece(Bounds(value).0);
          LiteralPiece(Bounds(value).1);
          BetweenReads(left, Literal(Bounds(value).0), Literal(Bounds(value).1), env);
        case _ =>
      }
  }

  /** A row's text is read as the row's condition, unless it is a comparison whose right-hand
      aggregate is unusable or a list test without items: then it has no reading at all. It is
      lexed as it was meant exactly when its columns and operands are legible. */
  lemma RowReads(row: Row, q: bool, env: Env)
    requires RowOk(row) && Compiles(row, q)
    ensures var ls := CompileRow(row, q).value;
            && (Lex(Render(ls)) == ls <==> RowLegible(row))
            && (RowLegible(row) ==> ReadText(Render(ls), env) == Own(row, q, env))
  {
    var ls := CompileRow(row, q).value;
    RowIsLegibleIff(row, q);
    RowTokensRead(row, q, env);
    LexRenderIff(ls);
    if RowLegible(row) {
      ReadRendered(ls, env);
    }
  }

  /** What a range row compares with its bounds: a column, a column's length, or an aggregate. */
  function Compared(row: Row, q: bool): Option<Lexemes> {
    match row
    case Single(column, Ranges(Between), _, _) => Ref(column, q)
    case Single(column, Ranges(LengthBetween), _, _) =>
      var x :- Ref(column, q);
      Some(Call("length", x))
    case Aggregated(spec, Ranges(Between), _, _) => AggExpr(spec, q)
    case _ => None
  }

  /** One item as a bound: an aggregate's bounds are always literals. */
  function BoundValue(row: Row, item: Value, q: bool, env: Env): Option<real> {
    if row.Single? then ValueOf(item, q, env) else Val(Literal(item), env)
  }

  /** A range row holds between its first item and its second, in this order; with fewer than two
      items, or an operand that is no list, both bounds are NULL. */
  lemma RangeHoldsInOrder(row: Row, q: bool, env: Env)
    requires RowOk(row) && Compiles(row, q) && RowLegible(row) && Compared(row, q).Some?
    ensures var x, items := Val(Compared(row, q).value, env), if row.value.List? then row.value.items else [];
            var lo := if |items| >= 2 then BoundValue(row, items[0], q, env) else Val([Word("NULL")], env);
            var hi := if |items| >= 2 then BoundValue(row, items[1], q, env) else Val([Word("NULL")], env);
            ReadText(Render(CompileRow(row, q).value), env) ==
            Some(And3(SqlReader.Compare(Ge, x, lo), SqlReader.Compare(Le, x, hi)))
  {
    hide ReadText, Render, Ref, AggExpr, Val, And3, SqlReader.Compare, RowLegible, RowOk;
    RowReads(row, q, env);
  }

  // ----- the stack -----

  /** Numbers are printed as numbers, and every row after the first is joined by AND or OR. */
  predicate StackOk(rows: seq<Row>) {
    && (forall r <- rows :: RowOk(r))
    && (forall i :: 0 < i < |rows| ==> Combinator(rows[i]) in {"AND", "OR"})
  }

  predicate ByOr(row: Row) {
    Combinator(row) == "OR"
  }

  /** The conditions of the rows that compile to something, in order. */
  function Conditions(rows: seq<Row>, q: bool, env: Env): seq<Cond> {
    if rows == [] then []
    else
      (if Compiles(rows[0], q) then [Cond(ByOr(rows[0]), Own(rows[0], q, env))] else [])
      + Conditions(rows[1..], q, env)
  }

  /** The same rows as parts of token text. */
  function Parts(rows: seq<Row>, q: bool): seq<Part> {
    if rows == [] then []
    else
      (if Compiles(rows[0], q) then [Connectives.Part(ByOr(rows[0]), Tok(CompileRow(rows[0], q).value))] else [])
      + Parts(rows[1..], q)
  }

  lemma RowClosed(row: Row, q: bool, env: Env)
    requires RowOk(row) && Compiles(row, q)
    ensures Closed(Tok(CompileRow(row, q).value))
    ensures ReadOr(Tok(CompileRow(row, q).value), env) == Own(row, q, env)
  {
    hide Closed, RowMeaning, Tok;
    RowTokensRead(row, q, env);
  }

  lemma ConsPart(p: Part, rest: seq<Part>, env: Env)
    ensures Conds([p] + rest, env) == [Cond(p.joinedByOr, ReadOr(p.text, env))] + Conds(rest, env)
  {
    assert ([p] + rest)[1..] == rest;
  }

  lemma {:induction false} PartsFacts(rows: seq<Row>, q: bool, env: Env)
    requires forall r <- rows :: RowOk(r)
    ensures forall p <- Parts(rows, q) :: Closed(p.text)
    ensures Conds(Parts(rows, q), env) == Conditions(rows, q, env)
  {
    hide Closed, Own, ByOr, Tok, RowOk;
    if rows != [] {
      PartsFacts(rows[1..], q, env);
      if Compiles(rows[0], q) {
        RowClosed(rows[0], q, env);
        ConsPart(Connectives.Part(ByOr(rows[0]), Tok(CompileRow(rows[0], q).value)), Parts(rows[1..], q), env);
      }
    }
  }

  /** A row after the first: combinator and fragment. */
  lemma LaterRow(row: Row, i: nat, q: bool)
    requires RowOk(row) && Compiles(row, q) && i > 0 && Combinator(row) in {"AND", "OR"}
    ensures var part := LowcodeRows.Part(row, i, CompileRow(row, q).value);
            && WellSpaced(part)
            && Tok(part) == [Joiner(ByOr(row))] + Tok(CompileRow(row, q).value)
  {
    var frag, c := CompileRow(row, q).value, AsWord(Combinator(row));
    RowTokensRead(row, q, Env(_ => None, _ => True));
    assert c == Joiner(ByOr(row));
    OneToken(c);
    SpTokens([c], frag);
    SpSpaced([c], frag);
  }

  /** The lexemes `ls` spell the parts: joined text, after a leading combinator if `joined`. */
  predicate Spells(ls: Lexemes, parts: seq<Part>, joined: bool) {
    if parts == [] then ls == []
    else
      && ls != [] && WellSpaced(ls)
      && Tok(ls) == (if joined then [Joiner(parts[0].joinedByOr)] else []) + PartsText(parts)
  }

  lemma SpellsCons(part: Lexemes, p: Part, rest: Lexemes, later: seq<Part>, joined: bool)
    requires Spells(part, [p], joined) && Spells(rest, later, true)
    ensures Spells(if rest == [] then part else Sp(part, rest), [p] + later, joined)
  {
    PartsTextCons(p, later);
    if rest != [] {
      SpTokens(part, rest);
      SpSpaced(part, rest);
      assert (if joined then [Joiner(p.joinedByOr)] else []) + p.text
             + ([Joiner(later[0].joinedByOr)] + PartsText(later)) ==
             (if joined then [Joiner(p.joinedByOr)] else [])
             + (p.text + [Joiner(later[0].joinedByOr)] + PartsText(later));
    } else {
      assert [p] + later == [p];
    }
  }

  lemma {:induction false} StackFromSpells(rows: seq<Row>, i: nat, q: bool)
    requires 0 < i <= |rows| && StackOk(rows) && StackFrom(rows, i, q).Some?
    ensures Spells(StackFrom(rows, i, q).value, Parts(rows[i..], q), true)
    decreases |rows| - i
  {
    if i < |rows| {
      StackFromSpells(rows, i + 1, q);
      assert rows[i..][1..] == rows[i + 1..];
      if Compiles(rows[i], q) {
        var p := Connectives.Part(ByOr(rows[i]), Tok(CompileRow(rows[i], q).value));
        LaterRow(rows[i], i, q);
        SpellsCons(LowcodeRows.Part(rows[i], i, CompileRow(rows[i], q).value), p,
                   StackFrom(rows, i + 1, q).value, Parts(rows[i + 1..], q), true);
      } else {
        assert Parts(rows[i..], q) == Parts(rows[i + 1..], q);
      }
    }
  }

  /** The text begins with row 0's fragment when there is one, else with a combinator. */
  lemma StackSpells(rows: seq<Row>, q: bool)
    requires StackOk(rows) && Stack(rows, q).Some?
    ensures Spells(Stack(rows, q).value, Parts(rows, q), rows != [] && !Compiles(rows[0], q))
  {
    if rows != [] {
      StackFromSpells(rows, 1, q);
      if Compiles(rows[0], q) {
        var frag := CompileRow(rows[0], q).value;
        var p := Connectives.Part(ByOr(rows[0]), Tok(frag));
        RowTokensRead(rows[0], q, Env(_ => None, _ => True));
        assert PartsText([p]) == p.text && [] + p.text == p.text;
        SpellsCons(frag, p, StackFrom(rows, 1, q).value, Parts(rows[1..], q), false);
      } else {
        assert Parts(rows, q) == Parts(rows[1..], q);
      }
    }
  }

  /** The columns and operands of the rows that compile to something are legible. */
  predicate StackLegible(rows: seq<Row>, q: bool) {
    forall r <- rows :: Compiles(r, q) ==> RowLegible(r)
  }

  lemma JoinerLegible(word: string)
    ensures Legible(AsWord(word))
  {
  }

  lemma PartIsLegibleIff(row: Row, i: nat, q: bool)
    requires Compiles(row, q)
    ensures AllLegible(LowcodeRows.Part(row, i, CompileRow(row, q).value)) <==> RowLegible(row)
  {
    hide AllLegible, RowLegible, AsWord, CompileRow;
    var joiner := AsWord(Combinator(row));
    RowIsLegibleIff(row, q);
    JoinerLegible(Combinator(row));
    LegiblePlain(joiner);
    LegibleSp([joiner], CompileRow(row, q).value);
  }

  lemma {:induction false} StackIsLegibleIff(rows: seq<Row>, i: nat, q: bool)
    requires i <= |rows| && StackFrom(rows, i, q).Some?
    ensures AllLegible(StackFrom(rows, i, q).value) <==> StackLegible(rows[i..], q)
    decreases |rows| - i
  {
    if i < |rows| {
      hide AllLegible, RowLegible, CompileRow;
      StackIsLegibleIff(rows, i + 1, q);
      assert forall r :: r in rows[i..] <==> r == rows[i] || r in rows[i + 1..];
      if Compiles(rows[i], q) {
        var part := LowcodeRows.Part(rows[i], i, CompileRow(rows[i], q).value);
        PartIsLegibleIff(rows[i], i, q);
        NothingIsLegible();
        LegibleSp(part, StackFrom(rows, i + 1, q).value);
      }
    } else {
      NothingIsLegible();
    }
  }

  lemma StackSpaced(rows: seq<Row>, q: bool)
    requires StackOk(rows) && Stack(rows, q).Some?
    ensures WellSpaced(Stack(rows, q).value)
  {
    hide WellSpaced, Stack, Parts;
    StackSpells(rows, q);
    NothingSpaced();
  }

  lemma NothingSpaced()
    ensures WellSpaced([])
  {
  }

  /** The stack's text is lexed as it was meant exactly when its columns and operands are legible;
      and then it is read with the reading of its tokens. */
  lemma StackLexes(rows: seq<Row>, q: bool, env: Env)
    requires StackOk(rows) && Stack(rows, q).Some?
    ensures var ls := Stack(rows, q).value;
            && WellSpaced(ls)
            && (AllLegible(ls) <==> StackLegible(rows, q))
            && (Lex(Render(ls)) == ls <==> StackLegible(rows, q))
            && (StackLegible(rows, q) ==> ReadText(Render(ls), env) == ReadOr(Tok(ls), env))
  {
    var ls := Stack(rows, q).value;
    StackSpaced(rows, q);
    assert rows[0..] == rows;
    StackIsLegibleIff(rows, 0, q);
    LexRenderIff(ls);
    if StackLegible(rows, q) {
      ReadRendered(ls, env);
    }
  }

  /**
   For every row stack, operator, operand and row of data: the emitted text, lexed and
   read with SQL precedence, is the OR of the maximal AND-runs of the rows' own
   conditions, provided row 0 compiles to something; otherwise it has no reading. The
   columns and operands must be legible: exactly then the text is lexed as it was meant.
   */
  lemma StackReads(rows: seq<Row>, q: bool, env: Env)
    requires StackOk(rows) && Stack(rows, q).Some?
    ensures var ls := Stack(rows, q).value;
            && (Lex(Render(ls)) == ls <==> StackLegible(rows, q))
            && (StackLegible(rows, q) ==>
                  ReadText(Render(ls), env) ==
                  if rows != [] && Compiles(rows[0], q) then AnyOf(Runs(Conditions(rows, q, env))) else None)
  {
    StackLexes(rows, q, env);
    StackTokensRead(rows, q, env);
  }

  lemma StackTokensRead(rows: seq<Row>, q: bool, env: Env)
    requires StackOk(rows) && Stack(rows, q).Some?
    ensures ReadOr(Tok(Stack(rows, q).value), env) ==
            if rows != [] && Compiles(rows[0], q) then AnyOf(Runs(Conditions(rows, q, env))) else None
  {
    var ls, parts := Stack(rows, q).value, Parts(rows, q);
    StackSpells(rows, q);
    PartsFacts(rows, q, env);
    if parts == [] {
      assert ReadOr([], env) == ReadAnd([], env) == ReadNot([], env) == None;
    } else if Compiles(rows[0], q) {
      assert Tok(ls) == PartsText(parts);
      PartsRead(parts, env);
    } else {
      LeadingJoiner(parts[0].joinedByOr, PartsText(parts), env);
    }
  }

  lemma {:induction false} ConditionsExist(rows: seq<Row>, q: bool, env: Env)
    ensures (forall c <- Conditions(rows, q, env) :: c.meaning.Some?)
            <==> forall r <- rows :: Compiles(r, q) ==> !Unreadable(r, q)
  {
    if rows != [] {
      var rest := Conditions(rows[1..], q, env);
      ConditionsExist(rows[1..], q, env);
      assert forall r :: r in rows <==> r == rows[0] || r in rows[1..];
      assert Compiles(rows[0], q) ==>
          Conditions(rows, q, env) == [Cond(ByOr(rows[0]), Own(rows[0], q, env))] + rest;
    }
  }

  /** Exactly the stacks whose text is well formed: row 0 compiles to something, no row compares
      with an unusable aggregate, no row tests an empty list, and every row is legible. */
  predicate WellFormed(rows: seq<Row>, q: bool) {
    && rows != [] && Compiles(rows[0], q)
    && forall r <- rows :: Compiles(r, q) ==> !Unreadable(r, q) && RowLegible(r)
  }

  /** The printed text is lexed as it was meant and has a reading. */
  predicate ReadsAsMeant(ls: Lexemes, env: Env) {
    Lex(Render(ls)) == ls && ReadText(Render(ls), env).Some?
  }

  /** The predicate text is read as it was meant exactly when the stack is well formed. */
  lemma StackWellFormedIff(rows: seq<Row>, q: bool, env: Env)
    requires StackOk(rows) && Stack(rows, q).Some?
    ensures ReadsAsMeant(Stack(rows, q).value, env) <==> WellFormed(rows, q)
  {
    hide Stack, AnyOf, Runs, Conditions, Compiles, Unreadable, RowLegible, ReadText, Lex, Render;
    StackReads(rows, q, env);
    RunsExist(Conditions(rows, q, env));
    ConditionsExist(rows, q, env);
  }

  lemma StackOfOne(row: Row, q: bool)
    requires Compiles(row, q)
    ensures Stack([row], q) == CompileRow(row, q)
  {
    assert StackFrom([row], 1, q) == Some([]);
  }

  lemma UnreadableAlone(row: Row, q: bool, env: Env)
    requires RowOk(row) && Compiles(row, q) && RowLegible(row) && Unreadable(row, q)
    ensures ReadText(Render(CompileRow(row, q).value), env) == None
  {
    hide RowOk, Unreadable, Compiles, RowLegible, Render, ReadText, Lex, RowMeaning;
    RowReads(row, q, env);
  }

  /** An empty list, or an operand that is no list, makes a text without a reading. */
  lemma EmptyListHasNoReading(v: Value, negated: bool, env: Env)
    requires ItemsOf(v) == [] && ValueOk(v)
    ensures var rows := [Single("a", Ranges(if negated then NotIn else In), v, "")];
            && StackOk(rows) && Stack(rows, false).Some?
            && Render(Stack(rows, false).value) == (if negated then "{{a}} NOT IN ()" else "{{a}} IN ()")
            && ReadText(Render(Stack(rows, false).value), env) == None
  {
    hide Render, ReadText, Lex;
    var row := Single("a", Ranges(if negated then NotIn else In), v, "");
    var ls := RowSql([Slot("a")], row.operator, v, false).value;
    NoBraceEncloses("a");
    EmptyListText(negated);
    assert ls[0] == Slot("a");
    StackOfOne(row, false);
    UnreadableAlone(row, false, env);
  }

  lemma EmptyListText(negated: bool)
    ensures var col := if negated then Sp([Slot("a")], [Key(KNot)]) else [Slot("a")];
            Render(Infix(col, Key(KIn), Brackets([]))) == if negated then "{{a}} NOT IN ()" else "{{a}} IN ()"
  {
    hide Render, Sp, Brackets;
    SpText([Slot("a")], [Key(KNot)]);
    RenderOne(Slot("a"));
    RenderOne(Key(KNot));
    EmptyBrackets();
    InfixText(if negated then Sp([Slot("a")], [Key(KNot)]) else [Slot("a")], KIn, Brackets([]));
  }

  lemma EmptyBrackets()
    ensures Render(Brackets([])) == "()"
  {
    RenderOne(Punct('('));
    RenderOne(Punct(')'));
    RenderAppend([Punct('(')], [Punct(')')]);
    assert Brackets([]) == [Punct('(')] + [Punct(')')];
  }

  // ----- a backslash before the closing quote -----

  /** The inputs that fail for their literal: any text without quotes in which a backslash takes
      the closing quote, such as one ending in a single backslash. The quote is never closed and
      the predicate has no reading. */
  lemma BackslashHasNoReading(v: string, env: Env)
    requires '\'' !in v && !Sealed(v)
    ensures var rows := [Single("a", Calls(StartsWith), Value.Text(v), "")];
            && StackOk(rows) && Stack(rows, false).Some?
            && Render(Stack(rows, false).value) == "startswith({{a}}, '" + v + "')"
            && ReadText(Render(Stack(rows, false).value), env) == None
  {
    hide Render, Lex, Sealed, Comma;
    var row := Single("a", Calls(StartsWith), Value.Text(v), "");
    var ls := Call("startswith", Comma([Slot("a")], [Str(v)]));
    NoBraceEncloses("a");
    assert ls[0] == Word("startswith");
    assert CompileRow(row, false) == Some(ls);
    StackOfOne(row, false);
    StartsWithText(v);
    StartsWithLexes(v);
  }

  lemma StartsWithText(v: string)
    requires '\'' !in v
    ensures Render(Call("startswith", Comma([Slot("a")], [Str(v)]))) == "startswith({{a}}, '" + v + "')"
  {
    hide Render, Call, Comma, DoubleQuotes;
    CallText("startswith", Comma([Slot("a")], [Str(v)]));
    CommaText([Slot("a")], [Str(v)]);
    RenderOne(Slot("a"));
    RenderOne(Str(v));
    NothingDoubled(v);
  }

  lemma StartsWithWord()
    ensures Lexable(Word("startswith"))
  {
    IdentWord("startswith");
  }

  lemma BeforeLiteral() returns (ls: Lexemes)
    ensures WellSpaced(ls) && AllLegible(ls) && ls != [] && ls[|ls| - 1].Space?
    ensures Render(ls) == "startswith({{a}}, "
  {
    hide Render, IsPlain, AsWord;
    var f, open, a, comma := [Word("startswith")], [Punct('(')], [Slot("a")], [Punct(',')];
    ls := f + open + a + comma + [Space];
    StartsWithWord();
    NoBraceEncloses("a");
    RenderAppend(f + open + a + comma, [Space]);
    RenderAppend(f + open + a, comma);
    RenderAppend(f + open, a);
    RenderAppend(f, open);
    RenderOne(Word("startswith"));
    RenderOne(Punct('('));
    RenderOne(Slot("a"));
    RenderOne(Punct(','));
    RenderOne(Space);
  }

  /** The opening quote is read as a stray mark. */
  lemma StartsWithLexes(v: string)
    requires '\'' !in v && !Sealed(v)
    ensures Punct('\'') in Lex("startswith({{a}}, '" + v + "')")
  {
    hide Sealed, Render, WellSpaced, AllLegible, Lex;
    var text := "'" + (v + "')");
    var before := BeforeLiteral();
    LexOnward(before, text);
    UnsealedNeverCloses(v, ")");
    assert v + ("'" + ")") == v + "')";
    StrayQuote(v + "')");
    assert "startswith({{a}}, '" + v + "')" == "startswith({{a}}, " + text;
  }

  lemma StrayQuote(rest: string)
    requires ReadLiteral(rest) == None
    ensures Punct('\'') in Lex("'" + rest)
  {
    var text := "'" + rest;
    assert text[1..] == rest;
    assert LexOne(text).0 == Punct('\'');
    assert Lex(text)[0] == Punct('\'');
  }

  // ----- the folded failure condition -----

  /** `NOT (<predicate>)` */
  function FailCondition(passCondition: Lexemes): Lexemes {
    Sp([Key(KNot)], Brackets(passCondition))
  }

  /** Every stack's text can stand between brackets, well formed or not. */
  lemma StackArgs(rows: seq<Row>, q: bool, env: Env)
    requires StackOk(rows) && Stack(rows, q).Some?
    ensures Args(Stack(rows, q).value)
  {
    var p, parts := Stack(rows, q).value, Parts(rows, q);
    StackSpells(rows, q);
    PartsFacts(rows, q, env);
    if parts != [] {
      PartsTextScan(parts);
      OneToken(Joiner(parts[0].joinedByOr));
      BalancedAppend([Joiner(parts[0].joinedByOr)], PartsText(parts), 0);
      assert [] + PartsText(parts) == PartsText(parts);
    }
  }

  lemma FailIsLegibleIff(p: Lexemes)
    ensures AllLegible(FailCondition(p)) <==> AllLegible(p)
  {
    LegibleBrackets(p);
    LegiblePlain(Key(KNot));
    LegibleSp([Key(KNot)], Brackets(p));
  }

  /** The folded condition is TRUE exactly when the predicate is FALSE and unknown exactly when
      the predicate is, provided the rows are legible; and it is read as it was meant exactly when
      the stack is well formed. */
  lemma FailConditionNegates(rows: seq<Row>, q: bool, env: Env)
    requires StackOk(rows) && Stack(rows, q).Some?
    ensures var p := Stack(rows, q).value;
            && WellSpaced(FailCondition(p))
            && (StackLegible(rows, q) ==>
                  ReadText(Render(FailCondition(p)), env) == NotR(ReadText(Render(p), env)))
            && (ReadsAsMeant(FailCondition(p), env) <==> WellFormed(rows, q))
  {
    hide Stack, AnyOf, Runs, Conditions, Compiles, Unreadable, RowLegible, ReadText, Lex, Render;
    var p := Stack(rows, q).value;
    StackArgs(rows, q, env);
    StackLexes(rows, q, env);
    StackWellFormedIff(rows, q, env);
    FailIsLegibleIff(p);
    NegatedBracketsText(p);
    LexRenderIff(FailCondition(p));
    ReadNegatedGroup(Tok(p), env);
    if StackLegible(rows, q) {
      ReadRendered(FailCondition(p), env);
    }
  }
}
