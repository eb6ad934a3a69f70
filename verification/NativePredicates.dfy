/**
 The second predicate compiler, for native checks. Paired checks are three-valued negations of
 each other, the tolerance test is closeness over the reals, and string literals can be read
 back.
 */
module NativePredicates {
  import opened Text
  import opened SqlText
  import opened SqlReader
  import opened LowcodeRows
  import opened LowcodeLegible
  import opened LowcodeMeaning

  // ----- string literals -----

  /** `value.replace("\\", "\\\\")` */
  function Backslashed(v: string): string {
    if v == "" then "" else (if v[0] == '\\' then "\\\\" else [v[0]]) + Backslashed(v[1..])
  }

  /** `_sql_string` */
  function StringText(v: string): string {
    "'" + DoubleQuotes(Backslashed(v)) + "'"
  }

  /** A doubled backslash takes no quote with it, and stands for one backslash. */
  lemma {:induction false} BackslashedIs(v: string, unescape: char -> char)
    requires unescape('\\') == '\\'
    ensures Sealed(Backslashed(v)) && Unescaped(Backslashed(v), unescape) == v
  {
    if v != "" {
      var tail := Backslashed(v[1..]);
      BackslashedIs(v[1..], unescape);
      if v[0] == '\\' {
        assert ("\\\\" + tail)[2..] == tail;
      } else {
        assert ([v[0]] + tail)[1..] == tail;
      }
      assert v == [v[0]] + v[1..];
    }
  }

  lemma AfterOpening(body: string, rest: string)
    ensures ("'" + body + "'" + rest)[1..] == body + ("'" + rest)
  {
  }

  /** Whatever the string, its literal ends exactly at the closing quote and stands for the string
      in every dialect that reads a doubled backslash as one. */
  lemma StringRoundTrip(v: string, rest: string, unescape: char -> char)
    requires (rest == "" || rest[0] != '\'') && unescape('\\') == '\\'
    ensures Scalar(Value.Text(v)).Some? && Show(Scalar(Value.Text(v)).value) == StringText(v)
    ensures var r := ReadLiteral((StringText(v) + rest)[1..]);
            && StringText(v)[0] == '\'' && r.Some? && r.value.1 == |StringText(v)| - 1
            && Unescaped(r.value.0, unescape) == v
  {
    hide Backslashed, DoubleQuotes, ReadLiteral, Unescaped, Sealed;
    BackslashedIs(v, unescape);
    SealedReads(Backslashed(v), rest);
    AfterOpening(DoubleQuotes(Backslashed(v)), rest);
  }

  // ----- arguments -----

  /** The name inside `{{ }}`, kept with its white space; None is the compile error. */
  function SlotName(column: Value): Option<string> {
    match column
    case Text(s) =>
      var text := Strip(s);
      if |text| > 4 && IsSlotOpen(text) && text[|text| - 2..] == "}}" && SlotPattern(text[2..|text| - 2])
      then Some(text[2..|text| - 2])
      else None
    case _ => None
  }

  /** White space, at least one character on one line, white space. */
  predicate SlotPattern(inner: string) {
    if Strip(inner) == "" then exists c <- inner :: c != '\n' else '\n' !in Strip(inner)
  }

  /** `_slot` */
  function ColumnSql(column: Value): Option<Lexemes> {
    var name :- SlotName(column);
    Some([Slot(name)])
  }

  /** `_sql_scalar` */
  function Scalar(v: Value): Option<Lexeme> {
    match v
    case Null => Some(Word("NULL"))
    case Bool(b) => Some(Word(if b then "TRUE" else "FALSE"))
    case Num(text) => Some(Word(text))
    case Text(s) => Some(Str(Backslashed(s)))
    case _ => None
  }

  predicate ScalarFine(v: Value) {
    v.Num? ==> NumberText(v.text)
  }

  /** A column that is one placeholder: the first `}}` in it is the closing one. */
  predicate ColumnFine(column: Value) {
    SlotName(column).Some? ==> Enclosed(SlotName(column).value)
  }

  // ----- the compilers; None is the compile error -----

  /** `CAST(col AS STRING)`, trimmed or not. */
  function StringColumn(col: Lexemes, trim: bool): Lexemes {
    var inner := Call("CAST", Infix(col, Word("AS"), [Word("STRING")]));
    if trim then Call("TRIM", inner) else inner
  }

  const EMPTY: Lexemes := [Str("")]

  function Test(a: Lexemes, c: Comparison, b: Lexemes): Lexemes {
    Infix(a, Key(KCmp(c)), b)
  }

  function And(a: Lexemes, b: Lexemes): Lexemes {
    Infix(a, Key(KAnd), b)
  }

  function Or(a: Lexemes, b: Lexemes): Lexemes {
    Infix(a, Key(KOr), b)
  }

  function Negated(bracketed: Lexemes): Lexemes {
    Brackets(Sp([Key(KNot)], bracketed))
  }

  function NullTest(col: Lexemes, expectNull: bool): Lexemes {
    if expectNull then IsNullSql(col) else IsNotNullSql(col)
  }

  function IsNullCheck(column: Value, expectNull: bool): Option<Lexemes> {
    var col :- ColumnSql(column);
    Some(Brackets(NullTest(col, expectNull)))
  }

  function EmptyCheck(column: Value, trim: bool, expectEmpty: bool): Option<Lexemes> {
    var col :- ColumnSql(column);
    Some(Brackets(Test(StringColumn(col, trim), if expectEmpty then Eq else Diamond, EMPTY)))
  }

  function NullOrEmpty(column: Value, trim: bool): Option<Lexemes> {
    var col :- ColumnSql(column);
    Some(Brackets(Or(IsNullSql(col), Test(StringColumn(col, trim), Eq, EMPTY))))
  }

  function NotNullAndNotEmpty(column: Value, trim: bool): Option<Lexemes> {
    var col :- ColumnSql(column);
    Some(Brackets(And(IsNotNullSql(col), Test(StringColumn(col, trim), Diamond, EMPTY))))
  }

  /** One comparison, two of them joined, or the compile error when there is no limit. */
  function Limits(col: Lexemes, low: Comparison, minLimit: Value, joiner: Keyword, high: Comparison, maxLimit: Value)
    : Option<Lexemes>
  {
    if minLimit.Null? && maxLimit.Null? then None
    else if maxLimit.Null? then
      var lo :- Scalar(minLimit);
      Some(Brackets(Test(col, low, [lo])))
    else if minLimit.Null? then
      var hi :- Scalar(maxLimit);
      Some(Brackets(Test(col, high, [hi])))
    else
      var lo :- Scalar(minLimit);
      var hi :- Scalar(maxLimit);
      Some(Brackets(Infix(Test(col, low, [lo]), Key(joiner), Test(col, high, [hi]))))
  }

  function InRange(column: Value, minLimit: Value, maxLimit: Value): Option<Lexemes> {
    var col :- ColumnSql(column);
    Limits(col, Ge, minLimit, KAnd, Le, maxLimit)
  }

  function NotInRange(column: Value, minLimit: Value, maxLimit: Value): Option<Lexemes> {
    var col :- ColumnSql(column);
    Limits(col, Lt, minLimit, KOr, Gt, maxLimit)
  }

  function Scalars(vs: seq<Value>): (r: Option<seq<Lexeme>>)
    ensures r.Some? ==> |r.value| == |vs|
  {
    if vs == [] then Some([])
    else
      var first :- Scalar(vs[0]);
      var rest :- Scalars(vs[1..]);
      Some([first] + rest)
  }

  function Itemized(items: seq<Lexeme>): Lexemes {
    if items == [] then []
    else if |items| == 1 then [items[0]]
    else Comma([items[0]], Itemized(items[1..]))
  }

  function Lowered(vs: seq<Value>, lower: Value -> string): seq<Lexeme> {
    seq(|vs|, i requires 0 <= i < |vs| => Str(Backslashed(lower(vs[i]))))
  }

  /** `_sql_in_list`; `lower` is `str(v).lower()`. */
  function InList(col: Lexemes, values: Value, caseSensitive: bool, lower: Value -> string): Option<Lexemes> {
    if !values.List? || values.items == [] then None
    else
      var items :- Scalars(values.items);
      if caseSensitive then Some(Brackets(Infix(col, Key(KIn), Brackets(Itemized(items)))))
      else Some(Brackets(Infix(Call("LOWER", StringColumn(col, false)), Key(KIn),
                               Brackets(Itemized(Lowered(values.items, lower))))))
  }

  function IsInList(column: Value, allowed: Value, caseSensitive: bool, lower: Value -> string): Option<Lexemes> {
    var col :- ColumnSql(column);
    InList(col, allowed, caseSensitive, lower)
  }

  function IsNotInList(column: Value, forbidden: Value, caseSensitive: bool, lower: Value -> string): Option<Lexemes> {
    var inner :- IsInList(column, forbidden, caseSensitive, lower);
    Some(Negated(inner))
  }

  function NotNullAndInList(column: Value, allowed: Value, caseSensitive: bool, lower: Value -> string)
    : Option<Lexemes>
  {
    var col :- ColumnSql(column);
    var inner :- InList(col, allowed, caseSensitive, lower);
    Some(Brackets(And(IsNotNullSql(col), inner)))
  }

  /** A tolerance: the number and its printed form. A missing one is zero. */
  datatype Tolerance = Tolerance(bound: real, text: string)

  function Distance(col: Lexemes, val: Lexemes): Lexemes {
    Call("ABS", Infix(col, Word("-"), val))
  }

  function RelativeBound(col: Lexemes, val: Lexemes, rel: Tolerance): Lexemes {
    Infix([Word(rel.text)], Word("*"), Call("GREATEST", Comma(Call("ABS", col), Call("ABS", val))))
  }

  /** What `_tolerance_pass` puts between its brackets. */
  function ToleranceTest(col: Lexemes, val: Lexemes, abs: Tolerance, rel: Tolerance): Lexemes {
    var absPart := Test(Distance(col, val), Le, [Word(abs.text)]);
    var relPart := Test(Distance(col, val), Le, RelativeBound(col, val, rel));
    if abs.bound > 0.0 && rel.bound > 0.0 then Or(Brackets(absPart), Brackets(relPart))
    else if abs.bound > 0.0 then absPart
    else if rel.bound > 0.0 then relPart
    else Test(col, Eq, val)
  }

  /** `_tolerance_pass` */
  function TolerancePass(col: Lexemes, val: Lexemes, abs: Tolerance, rel: Tolerance): Lexemes {
    Brackets(ToleranceTest(col, val, abs, rel))
  }

  function IsEqualTo(column: Value, value: Value, abs: Tolerance, rel: Tolerance): Option<Lexemes> {
    var col :- ColumnSql(column);
    if value.Null? then None
    else
      var val :- Scalar(value);
      Some(TolerancePass(col, [val], abs, rel))
  }

  function IsNotEqualTo(column: Value, value: Value, abs: Tolerance, rel: Tolerance): Option<Lexemes> {
    var inner :- IsEqualTo(column, value, abs, rel);
    Some(Negated(inner))
  }

  // ----- reading what was emitted -----

  /** The emitted text is lexed as it was meant exactly when `fine`, and is then read as `m`. */
  predicate Says(ls: Lexemes, fine: bool, m: Truth, env: Env) {
    && (Lex(Render(ls)) == ls <==> fine)
    && (fine ==> ReadText(Render(ls), env) == Some(m))
  }

  lemma ReadsSays(ls: Lexemes, fine: bool, m: Truth, env: Env)
    requires Reads(ls, m, env) && (AllLegible(ls) <==> fine)
    ensures Says(ls, fine, m, env)
  {
    LexRenderIff(ls);
    if fine {
      ReadRendered(ls, env);
    }
  }

  lemma InertIsClosed(ts: Tokens)
    requires Inert(ts, 0)
    ensures Closed(ts)
  {
    NoCutInert(ts);
    RunInert(ts, 0, false);
    InertBalanced(ts, 0);
  }

  /** Brackets around readable text change nothing. */
  lemma BracketsRead(ls: Lexemes, m: Truth, env: Env)
    requires WellSpaced(ls) && Balanced(Tok(ls), 0) && ReadOr(Tok(ls), env) == Some(m)
    ensures Reads(Brackets(ls), m, env)
  {
    BracketsTokens(ls);
    BracketsSpaced(ls);
    GroupFacts(Tok(ls));
    InertIsClosed(Group(Tok(ls)));
    ReadGroup(Tok(ls), env);
  }

  lemma ReadsBracketed(ls: Lexemes, m: Truth, env: Env)
    requires Reads(ls, m, env)
    ensures Reads(Brackets(ls), m, env)
  {
    BracketsRead(ls, m, env);
  }

  lemma AndReads(a: Lexemes, m: Truth, b: Lexemes, n: Truth, env: Env)
    requires Reads(a, m, env) && Reads(b, n, env)
    ensures Reads(Brackets(And(a, b)), And3(m, n), env)
  {
    ConjunctionReads(a, m, b, n, env);
    ReadsBracketed(And(a, b), And3(m, n), env);
  }

  lemma OrText(a: Lexemes, b: Lexemes)
    requires Fragment(a) && Fragment(b)
    ensures WellSpaced(Or(a, b)) && Tok(Or(a, b)) == Tok(a) + [Key(KOr)] + Tok(b) && Balanced(Tok(Or(a, b)), 0)
  {
    InfixTokens(a, Key(KOr), b);
    InfixSpaced(a, Key(KOr), b);
    OneToken(Key(KOr));
    BalancedAppend(Tok(a), [Key(KOr)], 0);
    BalancedAppend(Tok(a) + [Key(KOr)], Tok(b), 0);
  }

  lemma OrReads(a: Lexemes, m: Truth, b: Lexemes, n: Truth, env: Env)
    requires Reads(a, m, env) && Reads(b, n, env)
    ensures Reads(Brackets(Or(a, b)), Or3(m, n), env)
  {
    OrText(a, b);
    ReadOrAppend(Tok(a), Tok(b), env);
    BracketsRead(Or(a, b), Or3(m, n), env);
  }

  /** `(NOT (P))` is read as the negation of `P`. */
  lemma NegationReads(ls: Lexemes, m: Truth, env: Env)
    requires Reads(Brackets(ls), m, env) && Args(ls)
    ensures Reads(Negated(Brackets(ls)), Not3(m), env)
  {
    BracketsTokens(ls);
    NegatedBracketsText(ls);
    ReadNegatedGroup(Tok(ls), env);
    ReadGroup(Tok(ls), env);
    ReadsBracketed(Sp([Key(KNot)], Brackets(ls)), Not3(m), env);
  }

  lemma CompareReads(a: Lexemes, c: Comparison, b: Lexemes, env: Env)
    requires Piece(a) && Piece(b)
    ensures Reads(Test(a, c, b), Compare(c, Val(a, env), Val(b, env)), env)
  {
    ComparisonReads(a, c, b, env);
  }

  // ----- operands -----

  lemma ColumnPiece(column: Value)
    requires ColumnSql(column).Some?
    ensures Piece(ColumnSql(column).value)
  {
    OneToken(Slot(SlotName(column).value));
  }

  lemma ScalarPiece(v: Value)
    requires Scalar(v).Some? && ScalarFine(v)
    ensures Piece([Scalar(v).value])
  {
    OperandWords();
    if v.Num? {
      NumberWord(v.text);
    }
    OneToken(Scalar(v).value);
  }

  // ----- only the column can break out -----

  lemma ColumnIsLegibleIff(column: Value)
    requires ColumnSql(column).Some?
    ensures AllLegible(ColumnSql(column).value) <==> ColumnFine(column)
  {
    var ls := ColumnSql(column).value;
    assert ls[0] in ls;
  }

  lemma ScalarLegible(v: Value)
    requires Scalar(v).Some?
    ensures AllLegible([Scalar(v).value])
  {
    if v.Text? {
      BackslashedIs(v.s, c => c);
    }
  }

  lemma EmptyLegible()
    ensures AllLegible(EMPTY)
  {
  }

  lemma StringColumnIsLegibleIff(col: Lexemes, trim: bool)
    ensures AllLegible(StringColumn(col, trim)) <==> AllLegible(col)
  {
    hide AllLegible;
    var inner := Infix(col, Word("AS"), [Word("STRING")]);
    LegiblePlain(Word("STRING"));
    LegibleInfix(col, Word("AS"), [Word("STRING")]);
    LegibleCall("CAST", inner);
    LegibleCall("TRIM", Call("CAST", inner));
  }

  lemma JoinedIsLegibleIff(a: Lexemes, k: Keyword, b: Lexemes)
    ensures AllLegible(Infix(a, Key(k), b)) <==> AllLegible(a) && AllLegible(b)
    ensures AllLegible(Brackets(Infix(a, Key(k), b))) <==> AllLegible(a) && AllLegible(b)
  {
    LegibleInfix(a, Key(k), b);
    LegibleBrackets(Infix(a, Key(k), b));
  }

  lemma NegatedIsLegibleIff(ls: Lexemes)
    ensures AllLegible(Negated(ls)) <==> AllLegible(ls)
  {
    LegiblePlain(Key(KNot));
    LegibleSp([Key(KNot)], ls);
    LegibleBrackets(Sp([Key(KNot)], ls));
  }

  lemma {:induction false} ScalarsLegible(vs: seq<Value>)
    requires Scalars(vs).Some?
    ensures AllLegible(Scalars(vs).value)
  {
    if vs == [] {
      NothingIsLegible();
    } else {
      hide AllLegible, Scalar;
      ScalarsLegible(vs[1..]);
      ScalarLegible(vs[0]);
      LegibleAppend([Scalar(vs[0]).value], Scalars(vs[1..]).value);
    }
  }

  lemma LoweredLegible(vs: seq<Value>, lower: Value -> string)
    ensures AllLegible(Lowered(vs, lower))
  {
    forall l | l in Lowered(vs, lower)
      ensures Legible(l)
    {
      var i :| 0 <= i < |vs| && l == Lowered(vs, lower)[i];
      BackslashedIs(lower(vs[i]), c => c);
    }
  }

  lemma {:induction false} ItemizedLegible(items: seq<Lexeme>)
    requires AllLegible(items)
    ensures AllLegible(Itemized(items))
  {
    if |items| > 1 {
      ItemizedLegible(items[1..]);
      assert items[0] in items && AllLegible([items[0]]);
      LegibleComma([items[0]], Itemized(items[1..]));
    }
  }

  lemma StringWords()
    ensures Lexable(Word("AS")) && Lexable(Word("STRING"))
  {
    IdentWord("AS");
    IdentWord("STRING");
  }

  lemma CastPiece(a: Lexemes)
    requires Piece(a)
    ensures Piece(Call("CAST", a))
  {
    CallOne("CAST", a);
  }

  lemma StringColumnPiece(col: Lexemes, trim: bool)
    requires Piece(col)
    ensures Piece(StringColumn(col, trim))
  {
    hide Piece, Lexable;
    StringWords();
    WordPiece("STRING");
    InfixPiece(col, Word("AS"), [Word("STRING")]);
    CastPiece(Infix(col, Word("AS"), [Word("STRING")]));
    TrimPiece(Call("CAST", Infix(col, Word("AS"), [Word("STRING")])));
  }

  lemma EmptyPiece()
    ensures Piece(EMPTY)
  {
    StrPiece("");
  }

  // ----- null and empty -----

  /** `is_null` and `is_not_null` are never NULL, and negations of each other, for a column that is
      one placeholder; any other column is lexed as something else. */
  lemma NullPair(column: Value, env: Env)
    requires ColumnSql(column).Some?
    ensures var x, fine := Val(ColumnSql(column).value, env), ColumnFine(column);
            && Says(IsNullCheck(column, true).value, fine, Of(x.None?), env)
            && Says(IsNullCheck(column, false).value, fine, Not3(Of(x.None?)), env)
  {
    hide Reads, Piece, Says, Val, AllLegible;
    var col := ColumnSql(column).value;
    ColumnPiece(column);
    ColumnIsLegibleIff(column);
    LegibleNullTests(col);
    LegibleBrackets(IsNullSql(col));
    LegibleBrackets(IsNotNullSql(col));
    IsNullReads(col, env);
    IsNotNullReads(col, env);
    ReadsBracketed(IsNullSql(col), Of(Val(col, env).None?), env);
    ReadsBracketed(IsNotNullSql(col), Of(Val(col, env).Some?), env);
    ReadsSays(Brackets(IsNullSql(col)), ColumnFine(column), Of(Val(col, env).None?), env);
    ReadsSays(Brackets(IsNotNullSql(col)), ColumnFine(column), Of(Val(col, env).Some?), env);
  }

  /** `is_not_empty` is the negation of `is_empty` on every row, NULL included. */
  lemma EmptyPair(column: Value, trim: bool, env: Env)
    requires ColumnSql(column).Some?
    ensures var fine := ColumnFine(column);
            var m := Compare(Eq, Val(StringColumn(ColumnSql(column).value, trim), env), Val(EMPTY, env));
            && Says(EmptyCheck(column, trim, true).value, fine, m, env)
            && Says(EmptyCheck(column, trim, false).value, fine, Not3(m), env)
  {
    hide Reads, Piece, Says, Val, StringColumn, AllLegible;
    var col := ColumnSql(column).value;
    var s := StringColumn(col, trim);
    ColumnPiece(column);
    StringColumnPiece(col, trim);
    EmptyPiece();
    ColumnIsLegibleIff(column);
    StringColumnIsLegibleIff(col, trim);
    EmptyLegible();
    JoinedIsLegibleIff(s, KCmp(Eq), EMPTY);
    JoinedIsLegibleIff(s, KCmp(Diamond), EMPTY);
    CompareReads(s, Eq, EMPTY, env);
    CompareReads(s, Diamond, EMPTY, env);
    var m, n := Compare(Eq, Val(s, env), Val(EMPTY, env)), Compare(Diamond, Val(s, env), Val(EMPTY, env));
    ReadsBracketed(Test(s, Eq, EMPTY), m, env);
    ReadsBracketed(Test(s, Diamond, EMPTY), n, env);
    ReadsSays(Brackets(Test(s, Eq, EMPTY)), ColumnFine(column), m, env);
    ReadsSays(Brackets(Test(s, Diamond, EMPTY)), ColumnFine(column), n, env);
    assert n == Not3(m);
  }

  /** Casting and trimming a value give NULL exactly for NULL, and '' is not NULL. */
  predicate StringsFine(col: Lexemes, trim: bool, env: Env) {
    (Val(StringColumn(col, trim), env).None? <==> Val(col, env).None?) && Val(EMPTY, env).Some?
  }

  /** `is_null_or_empty` and `is_not_null_and_not_empty` are never NULL, and negations of each
      other. */
  lemma NullOrEmptyPair(column: Value, trim: bool, env: Env)
    requires ColumnSql(column).Some? && StringsFine(ColumnSql(column).value, trim, env)
    ensures var col := ColumnSql(column).value;
            var m := if Val(col, env).None? then True
                     else Compare(Eq, Val(StringColumn(col, trim), env), Val(EMPTY, env));
            && (m == True || m == False)
            && Says(NullOrEmpty(column, trim).value, ColumnFine(column), m, env)
            && Says(NotNullAndNotEmpty(column, trim).value, ColumnFine(column), Not3(m), env)
  {
    hide Reads, Piece, Says, Val, StringColumn, AllLegible;
    var col := ColumnSql(column).value;
    var s := StringColumn(col, trim);
    ColumnPiece(column);
    StringColumnPiece(col, trim);
    EmptyPiece();
    ColumnIsLegibleIff(column);
    StringColumnIsLegibleIff(col, trim);
    EmptyLegible();
    JoinedIsLegibleIff(s, KCmp(Eq), EMPTY);
    JoinedIsLegibleIff(s, KCmp(Diamond), EMPTY);
    var x, y := Val(col, env), Val(s, env);
    CompareReads(s, Eq, EMPTY, env);
    CompareReads(s, Diamond, EMPTY, env);
    IsNullReads(col, env);
    IsNotNullReads(col, env);
    var eq, ne := Compare(Eq, y, Val(EMPTY, env)), Compare(Diamond, y, Val(EMPTY, env));
    OrReads(IsNullSql(col), Of(x.None?), Test(s, Eq, EMPTY), eq, env);
    AndReads(IsNotNullSql(col), Of(x.Some?), Test(s, Diamond, EMPTY), ne, env);
    LegibleNullTests(col);
    JoinedIsLegibleIff(IsNullSql(col), KOr, Test(s, Eq, EMPTY));
    JoinedIsLegibleIff(IsNotNullSql(col), KAnd, Test(s, Diamond, EMPTY));
    var fine := ColumnFine(column);
    ReadsSays(Brackets(Or(IsNullSql(col), Test(s, Eq, EMPTY))), fine, Or3(Of(x.None?), eq), env);
    ReadsSays(Brackets(And(IsNotNullSql(col), Test(s, Diamond, EMPTY))), fine, And3(Of(x.Some?), ne), env);
    assert Or3(Of(x.None?), eq) != Truth.Unknown && And3(Of(x.Some?), ne) == Not3(Or3(Of(x.None?), eq));
  }

  // ----- ranges -----

  /** What a limit demands; a missing one demands nothing. */
  function Limit(x: Option<real>, c: Comparison, limit: Value, env: Env): Truth {
    if limit.Null? || Scalar(limit).None? then True else Compare(c, x, Val([Scalar(limit).value], env))
  }

  function RangeMeaning(x: Option<real>, minLimit: Value, maxLimit: Value, env: Env): Truth {
    And3(Limit(x, Ge, minLimit, env), Limit(x, Le, maxLimit, env))
  }

  lemma LimitReads(col: Lexemes, c: Comparison, limit: Value, env: Env)
    requires Piece(col) && !limit.Null? && Scalar(limit).Some? && ScalarFine(limit)
    ensures Reads(Test(col, c, [Scalar(limit).value]), Limit(Val(col, env), c, limit, env), env)
    ensures AllLegible(Test(col, c, [Scalar(limit).value])) <==> AllLegible(col)
  {
    hide AllLegible;
    ScalarPiece(limit);
    ScalarLegible(limit);
    JoinedIsLegibleIff(col, KCmp(c), [Scalar(limit).value]);
    CompareReads(col, c, [Scalar(limit).value], env);
  }

  lemma OneLimitReads(col: Lexemes, c: Comparison, limit: Value, env: Env)
    requires Piece(col) && !limit.Null? && Scalar(limit).Some? && ScalarFine(limit)
    ensures Says(Brackets(Test(col, c, [Scalar(limit).value])), AllLegible(col),
                 Limit(Val(col, env), c, limit, env), env)
  {
    hide Reads, Piece, Says, Val, AllLegible;
    LimitReads(col, c, limit, env);
    LegibleBrackets(Test(col, c, [Scalar(limit).value]));
    ReadsBracketed(Test(col, c, [Scalar(limit).value]), Limit(Val(col, env), c, limit, env), env);
    ReadsSays(Brackets(Test(col, c, [Scalar(limit).value])), AllLegible(col), Limit(Val(col, env), c, limit, env), env);
  }

  lemma InRangeReads(col: Lexemes, minLimit: Value, maxLimit: Value, env: Env)
    requires Piece(col) && ScalarFine(minLimit) && ScalarFine(maxLimit)
    requires Limits(col, Ge, minLimit, KAnd, Le, maxLimit).Some?
    ensures Says(Limits(col, Ge, minLimit, KAnd, Le, maxLimit).value, AllLegible(col),
                 RangeMeaning(Val(col, env), minLimit, maxLimit, env), env)
  {
    hide Reads, Piece, Says, Val, Scalar, Compare, AllLegible;
    var x := Val(col, env);
    if maxLimit.Null? {
      OneLimitReads(col, Ge, minLimit, env);
    } else if minLimit.Null? {
      OneLimitReads(col, Le, maxLimit, env);
    } else {
      var a, b := Test(col, Ge, [Scalar(minLimit).value]), Test(col, Le, [Scalar(maxLimit).value]);
      LimitReads(col, Ge, minLimit, env);
      LimitReads(col, Le, maxLimit, env);
      AndReads(a, Limit(x, Ge, minLimit, env), b, Limit(x, Le, maxLimit, env), env);
      JoinedIsLegibleIff(a, KAnd, b);
      ReadsSays(Brackets(And(a, b)), AllLegible(col), RangeMeaning(x, minLimit, maxLimit, env), env);
    }
  }

  lemma OppositeLimits(x: Option<real>, limit: Value, env: Env)
    requires !limit.Null? && Scalar(limit).Some?
    ensures Limit(x, Lt, limit, env) == Not3(Limit(x, Ge, limit, env))
    ensures Limit(x, Gt, limit, env) == Not3(Limit(x, Le, limit, env))
  {
  }

  lemma NotInRangeReads(col: Lexemes, minLimit: Value, maxLimit: Value, env: Env)
    requires Piece(col) && ScalarFine(minLimit) && ScalarFine(maxLimit)
    requires Limits(col, Lt, minLimit, KOr, Gt, maxLimit).Some?
    ensures Says(Limits(col, Lt, minLimit, KOr, Gt, maxLimit).value, AllLegible(col),
                 Not3(RangeMeaning(Val(col, env), minLimit, maxLimit, env)), env)
  {
    hide Reads, Piece, Says, Val, Scalar, Compare, AllLegible;
    var x := Val(col, env);
    if maxLimit.Null? {
      OneLimitReads(col, Lt, minLimit, env);
      OppositeLimits(x, minLimit, env);
    } else if minLimit.Null? {
      OneLimitReads(col, Gt, maxLimit, env);
      OppositeLimits(x, maxLimit, env);
    } else {
      var a, b := Test(col, Lt, [Scalar(minLimit).value]), Test(col, Gt, [Scalar(maxLimit).value]);
      LimitReads(col, Lt, minLimit, env);
      LimitReads(col, Gt, maxLimit, env);
      OppositeLimits(x, minLimit, env);
      OppositeLimits(x, maxLimit, env);
      OrReads(a, Limit(x, Lt, minLimit, env), b, Limit(x, Gt, maxLimit, env), env);
      JoinedIsLegibleIff(a, KOr, b);
      ReadsSays(Brackets(Or(a, b)), AllLegible(col), Not3(RangeMeaning(x, minLimit, maxLimit, env)), env);
    }
  }

  /** With the same limits, one- or two-sided, `is_not_in_range` compiles exactly when
      `is_in_range` does, and is its three-valued negation on every row. */
  lemma RangePair(column: Value, minLimit: Value, maxLimit: Value, env: Env)
    requires ScalarFine(minLimit) && ScalarFine(maxLimit)
    ensures InRange(column, minLimit, maxLimit).Some? == NotInRange(column, minLimit, maxLimit).Some?
    ensures InRange(column, minLimit, maxLimit).Some? ==>
              (!minLimit.Null? || !maxLimit.Null?)
              && var m := RangeMeaning(Val(ColumnSql(column).value, env), minLimit, maxLimit, env);
              && Says(InRange(column, minLimit, maxLimit).value, ColumnFine(column), m, env)
              && Says(NotInRange(column, minLimit, maxLimit).value, ColumnFine(column), Not3(m), env)
  {
    hide Reads, Piece, Says, Val, Compare, AllLegible;
    if InRange(column, minLimit, maxLimit).Some? {
      ColumnPiece(column);
      ColumnIsLegibleIff(column);
      InRangeReads(ColumnSql(column).value, minLimit, maxLimit, env);
      NotInRangeReads(ColumnSql(column).value, minLimit, maxLimit, env);
    }
  }

  // ----- lists -----

  /** An OR of equalities over the items. */
  function AnyItem(x: Option<real>, items: seq<Lexeme>, env: Env): Truth {
    if items == [] then False else Or3(Compare(Eq, x, Val([items[0]], env)), AnyItem(x, items[1..], env))
  }

  predicate PieceItems(items: seq<Lexeme>) {
    forall l <- items :: Lexable(l) && !l.Space? && !l.Punct? && !l.Key?
  }

  lemma ItemPiece(l: Lexeme)
    requires Lexable(l) && !l.Space? && !l.Punct? && !l.Key?
    ensures Piece([l])
  {
    OneToken(l);
  }

  lemma {:induction false} ItemsRead(x: Option<real>, items: seq<Lexeme>, env: Env)
    requires PieceItems(items) && items != []
    ensures Args(Itemized(items)) && SqlReader.InList(x, Items(Tok(Itemized(items))), env) == AnyItem(x, items, env)
    ensures [] !in Items(Tok(Itemized(items)))
  {
    hide Compare;
    ItemPiece(items[0]);
    PieceIsArgs([items[0]]);
    if |items| == 1 {
      assert items[1..] == [];
      OneItem(x, Tok([items[0]]), env);
    } else {
      ItemsRead(x, items[1..], env);
      var first, rest := [items[0]], Itemized(items[1..]);
      CommaArgs(first, rest);
      CommaTokens(first, rest);
      ItemsComma(Tok(first), Tok(rest));
    }
  }

  lemma {:induction false} ScalarsArePieces(vs: seq<Value>)
    requires Scalars(vs).Some? && forall v <- vs :: ScalarFine(v)
    ensures PieceItems(Scalars(vs).value)
  {
    hide Lexable;
    if vs != [] {
      ScalarsArePieces(vs[1..]);
      ScalarIsPiece(vs[0]);
    }
  }

  lemma ScalarIsPiece(v: Value)
    requires Scalar(v).Some? && ScalarFine(v)
    ensures var l := Scalar(v).value; Lexable(l) && !l.Space? && !l.Punct? && !l.Key?
  {
    OperandWords();
    if v.Num? {
      NumberWord(v.text);
    }
  }

  lemma ListTestReads(x: Lexemes, items: seq<Lexeme>, env: Env)
    requires Piece(x) && PieceItems(items) && items != []
    ensures var inner := Infix(x, Key(KIn), Brackets(Itemized(items)));
            Args(inner) && Reads(Brackets(inner), AnyItem(Val(x, env), items, env), env)
  {
    var list := Itemized(items);
    var inner := Infix(x, Key(KIn), Brackets(list));
    ItemsRead(Val(x, env), items, env);
    BracketsTokens(list);
    BracketsSpaced(list);
    InfixTokens(x, Key(KIn), Brackets(list));
    InfixSpaced(x, Key(KIn), Brackets(list));
    ReadIn(Tok(x), Tok(list), env);
    BracketsRead(inner, AnyItem(Val(x, env), items, env), env);
  }

  lemma LowerPiece(col: Lexemes)
    requires Piece(col)
    ensures Piece(Call("LOWER", StringColumn(col, false)))
  {
    hide Piece;
    StringColumnPiece(col, false);
    CallOne("LOWER", StringColumn(col, false));
  }

  /** The tested operand and the items of a list check. */
  function Tested(col: Lexemes, caseSensitive: bool): Lexemes {
    if caseSensitive then col else Call("LOWER", StringColumn(col, false))
  }

  function ListItems(values: Value, caseSensitive: bool, lower: Value -> string): seq<Lexeme>
    requires values.List? && Scalars(values.items).Some?
  {
    if caseSensitive then Scalars(values.items).value else Lowered(values.items, lower)
  }

  lemma InListReads(col: Lexemes, values: Value, caseSensitive: bool, lower: Value -> string, env: Env)
    requires Piece(col) && InList(col, values, caseSensitive, lower).Some? && forall v <- values.items :: ScalarFine(v)
    ensures var items := ListItems(values, caseSensitive, lower);
            var inner := Infix(Tested(col, caseSensitive), Key(KIn), Brackets(Itemized(items)));
            && InList(col, values, caseSensitive, lower) == Some(Brackets(inner)) && Args(inner)
            && Reads(Brackets(inner), AnyItem(Val(Tested(col, caseSensitive), env), items, env), env)
  {
    hide Piece, Reads, Args, Scalars, StringColumn;
    if caseSensitive {
      ScalarsArePieces(values.items);
    } else {
      LowerPiece(col);
    }
    ListTestReads(Tested(col, caseSensitive), ListItems(values, caseSensitive, lower), env);
  }

  lemma InListIsLegibleIff(col: Lexemes, values: Value, caseSensitive: bool, lower: Value -> string)
    requires values.List? && Scalars(values.items).Some?
    ensures var items := ListItems(values, caseSensitive, lower);
            AllLegible(Brackets(Infix(Tested(col, caseSensitive), Key(KIn), Brackets(Itemized(items)))))
            <==> AllLegible(col)
  {
    hide AllLegible, Scalars, Lowered;
    var items := ListItems(values, caseSensitive, lower);
    if caseSensitive {
      ScalarsLegible(values.items);
    } else {
      LoweredLegible(values.items, lower);
      StringColumnIsLegibleIff(col, false);
      LegibleCall("LOWER", StringColumn(col, false));
    }
    ItemizedLegible(items);
    LegibleBrackets(Itemized(items));
    JoinedIsLegibleIff(Tested(col, caseSensitive), KIn, Brackets(Itemized(items)));
  }

  /** `is_in_list` is an OR of equalities, `is_not_in_list` its three-valued negation, and
      `is_not_null_and_is_in_list` its conjunction with not being NULL; one compiles exactly
      when the others do. */
  lemma ListChecks(column: Value, values: Value, caseSensitive: bool, lower: Value -> string, env: Env)
    requires values.List? ==> forall v <- values.items :: ScalarFine(v)
    ensures IsInList(column, values, caseSensitive, lower).Some?
            == IsNotInList(column, values, caseSensitive, lower).Some?
            == NotNullAndInList(column, values, caseSensitive, lower).Some?
    ensures IsInList(column, values, caseSensitive, lower).Some? ==>
              values.List? && Scalars(values.items).Some?
              && var col := ColumnSql(column).value;
              var m := AnyItem(Val(Tested(col, caseSensitive), env), ListItems(values, caseSensitive, lower), env);
              && Says(IsInList(column, values, caseSensitive, lower).value, ColumnFine(column), m, env)
              && Says(IsNotInList(column, values, caseSensitive, lower).value, ColumnFine(column), Not3(m), env)
              && Says(NotNullAndInList(column, values, caseSensitive, lower).value, ColumnFine(column),
                      And3(Of(Val(col, env).Some?), m), env)
  {
    hide Piece, Reads, Args, Says, Val, AnyItem, Tested, Itemized, AllLegible;
    if IsInList(column, values, caseSensitive, lower).Some? {
      var col := ColumnSql(column).value;
      ColumnPiece(column);
      InListReads(col, values, caseSensitive, lower, env);
      var items := ListItems(values, caseSensitive, lower);
      var inner := Infix(Tested(col, caseSensitive), Key(KIn), Brackets(Itemized(items)));
      var m := AnyItem(Val(Tested(col, caseSensitive), env), items, env);
      ColumnIsLegibleIff(column);
      InListIsLegibleIff(col, values, caseSensitive, lower);
      ReadsSays(Brackets(inner), ColumnFine(column), m, env);
      NegationReads(inner, m, env);
      NegatedIsLegibleIff(Brackets(inner));
      ReadsSays(Negated(Brackets(inner)), ColumnFine(column), Not3(m), env);
      IsNotNullReads(col, env);
      LegibleNullTests(col);
      JoinedIsLegibleIff(IsNotNullSql(col), KAnd, Brackets(inner));
      AndReads(IsNotNullSql(col), Of(Val(col, env).Some?), Brackets(inner), m, env);
      ReadsSays(Brackets(And(IsNotNullSql(col), Brackets(inner))), ColumnFine(column),
                And3(Of(Val(col, env).Some?), m), env);
    }
  }

  // ----- tolerance -----

  function Abs(x: real): real {
    if x < 0.0 then -x else x
  }

  function Larger(x: real, y: real): real {
    if x >= y then x else y
  }

  /** Equal, or within a positive absolute bound, or within a positive relative bound. */
  predicate Close(x: real, v: real, abs: real, rel: real) {
    || x == v
    || (abs > 0.0 && Abs(x - v) <= abs)
    || (rel > 0.0 && Abs(x - v) <= rel * Larger(Abs(x), Abs(v)))
  }

  /** Closeness does not tell the column from the value. */
  lemma CloseIsSymmetric(x: real, v: real, abs: real, rel: real)
    ensures Close(x, v, abs, rel) == Close(v, x, abs, rel)
  {
    assert Abs(x - v) == Abs(v - x) && Larger(Abs(x), Abs(v)) == Larger(Abs(v), Abs(x));
  }

  /** A tolerance that is emitted is printed as a number. */
  predicate ToleranceFine(t: Tolerance) {
    t.bound > 0.0 ==> NumberText(t.text)
  }

  /** The row gives the emitted arithmetic its meaning: NULL in, NULL out. */
  predicate ArithmeticFine(col: Lexemes, val: Lexemes, abs: Tolerance, rel: Tolerance, env: Env) {
    && Val(val, env).Some?
    && (abs.bound > 0.0 ==> Val([Word(abs.text)], env) == Some(abs.bound))
    && var x, v := Val(col, env), Val(val, env).value;
    && (abs.bound > 0.0 || rel.bound > 0.0 ==>
          Val(Distance(col, val), env) == if x.None? then None else Some(Abs(x.value - v)))
    && (rel.bound > 0.0 ==>
          Val(RelativeBound(col, val, rel), env) ==
          if x.None? then None else Some(rel.bound * Larger(Abs(x.value), Abs(v))))
  }

  lemma AbsPiece(a: Lexemes)
    requires Piece(a)
    ensures Piece(Call("ABS", a))
  {
    CallOne("ABS", a);
  }

  lemma GreatestPiece(a: Lexemes, b: Lexemes)
    requires Piece(a) && Piece(b)
    ensures Piece(Call("GREATEST", Comma(a, b)))
  {
    CallTwo("GREATEST", a, b);
  }

  lemma SignWords()
    ensures Lexable(Word("-")) && Lexable(Word("*"))
  {
  }

  lemma DistancePiece(col: Lexemes, val: Lexemes)
    requires Piece(col) && Piece(val)
    ensures Piece(Distance(col, val))
  {
    hide Piece, Lexable;
    SignWords();
    InfixPiece(col, Word("-"), val);
    AbsPiece(Infix(col, Word("-"), val));
  }

  lemma NumberPiece(text: string)
    requires NumberText(text)
    ensures Piece([Word(text)])
  {
    NumberWord(text);
    WordPiece(text);
  }

  lemma RelativePiece(col: Lexemes, val: Lexemes, rel: Tolerance)
    requires Piece(col) && Piece(val) && NumberText(rel.text)
    ensures Piece(RelativeBound(col, val, rel))
  {
    hide Piece, Lexable;
    SignWords();
    NumberPiece(rel.text);
    AbsPiece(col);
    AbsPiece(val);
    GreatestPiece(Call("ABS", col), Call("ABS", val));
    InfixPiece([Word(rel.text)], Word("*"), Call("GREATEST", Comma(Call("ABS", col), Call("ABS", val))));
  }

  /** NULL for a NULL column, else whether the two are close. */
  function ToleranceMeaning(x: Option<real>, v: real, abs: real, rel: real): Truth {
    if x.None? then Truth.Unknown else Of(Close(x.value, v, abs, rel))
  }

  lemma RelativeCoversEqual(x: real, rel: real)
    requires rel > 0.0
    ensures 0.0 <= rel * Larger(Abs(x), Abs(x))
  {
  }

  /** The comparisons of the tolerance test, whatever the row makes of their operands. */
  function TestMeaning(col: Lexemes, val: Lexemes, abs: Tolerance, rel: Tolerance, env: Env): Truth {
    var near := Val(Distance(col, val), env);
    var absTest := Compare(Le, near, Val([Word(abs.text)], env));
    var relTest := Compare(Le, near, Val(RelativeBound(col, val, rel), env));
    if abs.bound > 0.0 && rel.bound > 0.0 then Or3(absTest, relTest)
    else if abs.bound > 0.0 then absTest
    else if rel.bound > 0.0 then relTest
    else Compare(Eq, Val(col, env), Val(val, env))
  }

  /** With the arithmetic's own meaning those comparisons say: close, or NULL for NULL. */
  lemma TestMeansClose(col: Lexemes, val: Lexemes, abs: Tolerance, rel: Tolerance, env: Env)
    requires ArithmeticFine(col, val, abs, rel, env)
    ensures TestMeaning(col, val, abs, rel, env) ==
            ToleranceMeaning(Val(col, env), Val(val, env).value, abs.bound, rel.bound)
  {
    hide Val, Distance, RelativeBound;
    if rel.bound > 0.0 {
      RelativeCoversEqual(Val(val, env).value, rel.bound);
    }
  }

  lemma ToleranceReads(col: Lexemes, val: Lexemes, abs: Tolerance, rel: Tolerance, env: Env)
    requires Piece(col) && Piece(val) && ToleranceFine(abs) && ToleranceFine(rel)
    ensures var inner := ToleranceTest(col, val, abs, rel);
            Args(inner) && Reads(Brackets(inner), TestMeaning(col, val, abs, rel, env), env)
  {
    hide Piece, Reads, Val, Args, Distance, RelativeBound, Compare;
    var near, share, bound := Distance(col, val), RelativeBound(col, val, rel), [Word(abs.text)];
    DistancePiece(col, val);
    if rel.bound > 0.0 {
      RelativePiece(col, val, rel);
    }
    if abs.bound > 0.0 {
      NumberPiece(abs.text);
    }
    if abs.bound > 0.0 && rel.bound > 0.0 {
      BothTolerances(near, bound, share, env);
    } else if abs.bound > 0.0 {
      BracketedCompare(near, Le, bound, env);
    } else if rel.bound > 0.0 {
      BracketedCompare(near, Le, share, env);
    } else {
      BracketedCompare(col, Eq, val, env);
    }
  }

  lemma DistanceIsLegibleIff(col: Lexemes, val: Lexemes, rel: Tolerance)
    ensures AllLegible(Distance(col, val)) <==> AllLegible(col) && AllLegible(val)
    ensures AllLegible(RelativeBound(col, val, rel)) <==> AllLegible(col) && AllLegible(val)
  {
    hide AllLegible;
    LegibleInfix(col, Word("-"), val);
    LegibleCall("ABS", Infix(col, Word("-"), val));
    LegibleCall("ABS", col);
    LegibleCall("ABS", val);
    LegibleComma(Call("ABS", col), Call("ABS", val));
    LegibleCall("GREATEST", Comma(Call("ABS", col), Call("ABS", val)));
    LegiblePlain(Word(rel.text));
    LegibleInfix([Word(rel.text)], Word("*"), Call("GREATEST", Comma(Call("ABS", col), Call("ABS", val))));
  }

  lemma ToleranceIsLegibleIff(col: Lexemes, val: Lexemes, abs: Tolerance, rel: Tolerance)
    ensures AllLegible(ToleranceTest(col, val, abs, rel)) <==> AllLegible(col) && AllLegible(val)
  {
    hide AllLegible, Distance, RelativeBound;
    var near, share, bound := Distance(col, val), RelativeBound(col, val, rel), [Word(abs.text)];
    DistanceIsLegibleIff(col, val, rel);
    LegiblePlain(bound[0]);
    JoinedIsLegibleIff(near, KCmp(Le), bound);
    JoinedIsLegibleIff(near, KCmp(Le), share);
    JoinedIsLegibleIff(Brackets(Test(near, Le, bound)), KOr, Brackets(Test(near, Le, share)));
    JoinedIsLegibleIff(col, KCmp(Eq), val);
  }

  lemma BracketedCompare(a: Lexemes, c: Comparison, b: Lexemes, env: Env)
    requires Piece(a) && Piece(b)
    ensures Args(Test(a, c, b)) && Reads(Brackets(Test(a, c, b)), Compare(c, Val(a, env), Val(b, env)), env)
  {
    hide Piece, Reads, Val, Args;
    CompareArgs(a, c, b);
    CompareReads(a, c, b, env);
    ReadsBracketed(Test(a, c, b), Compare(c, Val(a, env), Val(b, env)), env);
  }

  lemma CompareArgs(a: Lexemes, c: Comparison, b: Lexemes)
    requires Piece(a) && Piece(b)
    ensures Args(Test(a, c, b))
  {
    PieceIsArgs(a);
    PieceIsArgs(b);
    OneToken(Key(KCmp(c)));
    SpArgs(a, [Key(KCmp(c))]);
    SpArgs(Sp(a, [Key(KCmp(c))]), b);
  }

  lemma BothTolerances(near: Lexemes, bound: Lexemes, share: Lexemes, env: Env)
    requires Piece(near) && Piece(bound) && Piece(share)
    ensures var inner := Or(Brackets(Test(near, Le, bound)), Brackets(Test(near, Le, share)));
            && Args(inner)
            && Reads(Brackets(inner),
                     Or3(Compare(Le, Val(near, env), Val(bound, env)),
                         Compare(Le, Val(near, env), Val(share, env))), env)
  {
    hide Piece, Val;
    var a, b := Test(near, Le, bound), Test(near, Le, share);
    var m, n := Compare(Le, Val(near, env), Val(bound, env)), Compare(Le, Val(near, env), Val(share, env));
    CompareReads(near, Le, bound, env);
    CompareReads(near, Le, share, env);
    ReadsBracketed(a, m, env);
    ReadsBracketed(b, n, env);
    OrText(Brackets(a), Brackets(b));
    OrReads(Brackets(a), m, Brackets(b), n, env);
  }

  /** On every row `is_not_equal_to` is the three-valued negation of `is_equal_to`; and where the
      arithmetic has its meaning, `is_equal_to` is closeness over the reals. */
  lemma EqualPair(column: Value, value: Value, abs: Tolerance, rel: Tolerance, env: Env)
    requires ScalarFine(value) && ToleranceFine(abs) && ToleranceFine(rel)
    ensures IsEqualTo(column, value, abs, rel).Some? == IsNotEqualTo(column, value, abs, rel).Some?
    ensures IsEqualTo(column, value, abs, rel).Some? ==>
              var col, val := ColumnSql(column).value, [Scalar(value).value];
              var m := TestMeaning(col, val, abs, rel, env);
              && Says(IsEqualTo(column, value, abs, rel).value, ColumnFine(column), m, env)
              && Says(IsNotEqualTo(column, value, abs, rel).value, ColumnFine(column), Not3(m), env)
              && (ArithmeticFine(col, val, abs, rel, env) ==>
                    m == ToleranceMeaning(Val(col, env), Val(val, env).value, abs.bound, rel.bound))
  {
    hide Piece, Reads, Val, Says, ToleranceTest, TestMeaning, Args, Close, AllLegible;
    if IsEqualTo(column, value, abs, rel).Some? {
      var col, val := ColumnSql(column).value, [Scalar(value).value];
      var inner, m := ToleranceTest(col, val, abs, rel), TestMeaning(col, val, abs, rel, env);
      ColumnPiece(column);
      ScalarPiece(value);
      ToleranceReads(col, val, abs, rel, env);
      ColumnIsLegibleIff(column);
      ScalarLegible(value);
      ToleranceIsLegibleIff(col, val, abs, rel);
      LegibleBrackets(inner);
      NegatedIsLegibleIff(Brackets(inner));
      ReadsSays(Brackets(inner), ColumnFine(column), m, env);
      NegationReads(inner, m, env);
      ReadsSays(Negated(Brackets(inner)), ColumnFine(column), Not3(m), env);
      if ArithmeticFine(col, val, abs, rel, env) {
        TestMeansClose(col, val, abs, rel, env);
      }
    }
  }

  // ----- column arguments that are more than one placeholder -----

  /** The column's text is lexed as one placeholder exactly when the first `}}` in it is the
      closing one; the slot pattern also lets other texts through. */
  lemma OnePlaceholderIff(column: Value)
    requires ColumnSql(column).Some?
    ensures Lex(Render(ColumnSql(column).value)) == ColumnSql(column).value <==> ColumnFine(column)
  {
    var ls := ColumnSql(column).value;
    assert WellSpaced(ls);
    LexRenderIff(ls);
    ColumnIsLegibleIff(column);
  }

  const TWO_COLUMNS: string := "{{a}} OR {{b}}"
  const TWO_NAME: string := "a}} OR {{b"

  lemma TwoColumnsPass()
    ensures SlotName(Value.Text(TWO_COLUMNS)) == Some(TWO_NAME) && !Enclosed(TWO_NAME)
  {
    hide Strip, FindClose;
    StripTrimmed(TWO_COLUMNS);
    StripTrimmed(TWO_NAME);
    TwoColumnsClose();
    assert TWO_COLUMNS[|TWO_COLUMNS| - 2..] == "}}" && TWO_COLUMNS[2..|TWO_COLUMNS| - 2] == TWO_NAME;
  }

  lemma TwoColumnsClose()
    ensures FindClose(TWO_NAME + "}}") == Some(1)
  {
    var s := TWO_NAME + "}}";
    assert s[1..] == "}} OR {{b}}" && FindClose(s[1..]) == Some(0);
  }

  lemma TwoColumnsShown()
    ensures Show(Slot("a")) == "{{a}}" && Show(Slot("b")) == "{{b}}"
  {
  }

  lemma TwoNameShown()
    ensures Show(Slot(TWO_NAME)) == TWO_COLUMNS
  {
    assert Show(Slot(TWO_NAME)) == "{{" + "a}} OR {{b" + "}}";
  }

  lemma TwoColumnsJoined(test: string)
    ensures "{{a}}" + (" " + Spelling(KOr) + " ") + ("{{b}}" + test) == TWO_COLUMNS + test
  {
    assert Spelling(KOr) == "OR";
    var head := "{{a}}" + (" " + "OR" + " ");
    assert head + "{{b}}" == TWO_COLUMNS;
    Regroup(head, "{{b}}", test);
  }

  /** The emitted text of a null check on the two columns is that of an OR. */
  lemma TwoColumnsText(expectNull: bool)
    ensures Render(Brackets(NullTest([Slot(TWO_NAME)], expectNull)))
            == Render(Brackets(Or([Slot("a")], NullTest([Slot("b")], expectNull))))
  {
    hide Render, Brackets, Infix, Show, Spelling, NullTest;
    var a, b, both := [Slot("a")], [Slot("b")], [Slot(TWO_NAME)];
    RenderOne(Slot("a"));
    RenderOne(Slot("b"));
    RenderOne(Slot(TWO_NAME));
    NullCheckText(b, expectNull);
    NullCheckText(both, expectNull);
    TwoColumnsShown();
    TwoNameShown();
    TwoColumnsJoined(if expectNull then " IS NULL" else " IS NOT NULL");
    InfixText(a, KOr, NullTest(b, expectNull));
    BracketsText(NullTest(both, expectNull));
    BracketsText(Or(a, NullTest(b, expectNull)));
  }

  lemma NullCheckText(ls: Lexemes, expectNull: bool)
    ensures Render(NullTest(ls, expectNull)) == Render(ls) + if expectNull then " IS NULL" else " IS NOT NULL"
  {
    hide Render, Infix, Sp;
    RenderOne(Word("NULL"));
    RenderOne(Key(KIs));
    InfixText(ls, KIs, [Word("NULL")]);
    SpText(ls, [Key(KIs)]);
    InfixText(Sp(ls, [Key(KIs)]), KNot, [Word("NULL")]);
  }

  /** `{{a}} OR {{b}}` passes as one column, and then both null checks hold on one row: the pairs
      are negations only of columns that are one placeholder. */
  lemma TwoColumnsBreakPairs(env: Env)
    requires env.truth([Slot("a")]) == True
    ensures var column := Value.Text(TWO_COLUMNS);
            && ColumnSql(column).Some? && !ColumnFine(column)
            && ReadText(Render(IsNullCheck(column, true).value), env) == Some(True)
            && ReadText(Render(IsNullCheck(column, false).value), env) == Some(True)
  {
    hide Reads, Render;
    var a, b := [Slot("a")], [Slot("b")];
    TwoColumnsPass();
    TwoColumnsText(true);
    TwoColumnsText(false);
    NoBraceEncloses("a");
    NoBraceEncloses("b");
    OneToken(Slot("a"));
    OneToken(Slot("b"));
    TruthReads(a, env);
    IsNullReads(b, env);
    IsNotNullReads(b, env);
    OrReads(a, True, IsNullSql(b), Of(Val(b, env).None?), env);
    OrReads(a, True, IsNotNullSql(b), Of(Val(b, env).Some?), env);
    LegiblePlain(Slot("a"));
    LegiblePlain(Slot("b"));
    LegibleNullTests(b);
    JoinedIsLegibleIff(a, KOr, IsNullSql(b));
    JoinedIsLegibleIff(a, KOr, IsNotNullSql(b));
    ReadsSays(Brackets(Or(a, IsNullSql(b))), true, True, env);
    ReadsSays(Brackets(Or(a, IsNotNullSql(b))), true, True, env);
  }
}
