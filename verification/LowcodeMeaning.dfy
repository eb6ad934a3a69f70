/**
 What the row compiler's text means. Each operator's fragment is read as its
 intended three-valued condition, and the flat, unbracketed row stack is read as
 the OR of its maximal AND-runs.
 */
module LowcodeMeaning {
  import opened Text
  import opened SqlText
  import opened SqlReader
  import opened LowcodeRows

  // ----- numbers are printed as numbers -----

  /** `str()` of a Python int or float, `inf` and `nan` included. */
  predicate NumberText(s: string) {
    s != "" && forall c <- s :: IsDigit(c) || c in "+-.einfa"
  }

  predicate SpecOk(spec: AggSpec) {
    spec.param.Some? ==> NumberText(spec.param.value)
  }

  predicate ScalarOk(v: Value) {
    match v
    case Num(text) => NumberText(text)
    case Object(_, _, _, aggregate, _) => aggregate.Some? ==> SpecOk(aggregate.value)
    case _ => true
  }

  predicate ValueOk(v: Value) {
    ScalarOk(v) && (v.List? ==> forall x <- v.items :: ScalarOk(x))
  }

  predicate RowOk(row: Row) {
    match row
    case NotAnObject => true
    case Single(_, _, value, _) => ValueOk(value)
    case Aggregated(left, _, value, _) => SpecOk(left) && ValueOk(value)
  }

  // ----- operand text -----

  function Tok(ls: Lexemes): Tokens {
    DropSpaces(ls)
  }

  function Val(ls: Lexemes, env: Env): Option<real> {
    env.value(Tok(ls))
  }

  /** Text of one operand. */
  predicate Piece(ls: Lexemes) {
    WellSpaced(ls) && Operand(Tok(ls))
  }

  /** Text that may stand between brackets. */
  predicate Args(ls: Lexemes) {
    WellSpaced(ls) && Balanced(Tok(ls), 0)
  }

  lemma PieceIsArgs(ls: Lexemes)
    requires Piece(ls)
    ensures Args(ls)
  {
    InertBalanced(Tok(ls), 0);
  }

  lemma {:induction false} NoSpaces(ls: Lexemes)
    requires forall l <- ls :: !l.Space?
    ensures Tok(ls) == ls
  {
    if ls != [] {
      NoSpaces(ls[1..]);
    }
  }

  lemma OneToken(l: Lexeme)
    requires !l.Space?
    ensures Tok([l]) == [l]
    ensures !l.Punct? && !l.Key? ==> Operand([l])
    ensures !l.Punct? ==> Balanced([l], 0)
  {
    NoSpaces([l]);
    assert [l][1..] == [];
  }

  lemma IdentPiece(w: string)
    requires IsIdentifier(w) && AsWord(w) == Word(w)
    ensures Piece([Word(w)])
  {
    IdentWord(w);
    OneToken(Word(w));
  }

  lemma WordPiece(w: string)
    requires Lexable(Word(w))
    ensures Piece([Word(w)])
  {
    OneToken(Word(w));
  }

  lemma SpTokens(a: Lexemes, b: Lexemes)
    ensures Tok(Sp(a, b)) == Tok(a) + Tok(b)
  {
    DropSpacesAppend(a + [Space], b);
    DropSpacesAppend(a, [Space]);
  }

  lemma InfixTokens(a: Lexemes, op: Lexeme, b: Lexemes)
    requires !op.Space?
    ensures Tok(Infix(a, op, b)) == Tok(a) + [op] + Tok(b)
  {
    OneToken(op);
    SpTokens(a, [op]);
    SpTokens(Sp(a, [op]), b);
  }

  lemma BracketsTokens(a: Lexemes)
    ensures Tok(Brackets(a)) == Group(Tok(a))
  {
    DropSpacesAppend([Punct('(')] + a, [Punct(')')]);
    DropSpacesAppend([Punct('(')], a);
  }

  lemma CommaTokens(a: Lexemes, b: Lexemes)
    ensures Tok(Comma(a, b)) == Tok(a) + [Punct(',')] + Tok(b)
  {
    DropSpacesAppend(a + [Punct(',')], [Space] + b);
    DropSpacesAppend(a, [Punct(',')]);
    DropSpacesAppend([Space], b);
  }

  lemma SpSpaced(a: Lexemes, b: Lexemes)
    requires WellSpaced(a) && WellSpaced(b)
    ensures WellSpaced(Sp(a, b))
  {
    WellSpacedJoin(a, Space, b);
  }

  lemma InfixSpaced(a: Lexemes, op: Lexeme, b: Lexemes)
    requires WellSpaced(a) && WellSpaced(b) && Lexable(op)
    ensures WellSpaced(Infix(a, op, b))
  {
    SpSpaced(a, [op]);
    SpSpaced(Sp(a, [op]), b);
  }

  lemma BracketsSpaced(a: Lexemes)
    requires WellSpaced(a)
    ensures WellSpaced(Brackets(a))
  {
    WellSpacedJoin([], Punct('('), a);
    WellSpacedJoin([Punct('(')] + a, Punct(')'), []);
    assert [] + [Punct('(')] + a == [Punct('(')] + a;
    assert [Punct('(')] + a + [Punct(')')] + [] == Brackets(a);
  }

  lemma InfixPiece(a: Lexemes, op: Lexeme, b: Lexemes)
    requires Piece(a) && Piece(b) && Lexable(op) && op.Word?
    ensures Piece(Infix(a, op, b))
  {
    InfixTokens(a, op, b);
    InfixSpaced(a, op, b);
    OneToken(op);
    InertAppend(Tok(a), [op], 0);
    InertAppend(Tok(a) + [op], Tok(b), 0);
  }

  lemma SpArgs(a: Lexemes, b: Lexemes)
    requires Args(a) && Args(b)
    ensures Args(Sp(a, b))
  {
    SpTokens(a, b);
    SpSpaced(a, b);
    BalancedAppend(Tok(a), Tok(b), 0);
  }

  lemma CommaArgs(a: Lexemes, b: Lexemes)
    requires Args(a) && Args(b)
    ensures Args(Comma(a, b))
  {
    CommaTokens(a, b);
    WellSpacedJoin([], Space, b);
    assert [] + [Space] + b == [Space] + b;
    WellSpacedJoin(a, Punct(','), [Space] + b);
    assert [Punct(',')][1..] == [];
    BalancedAppend(Tok(a), [Punct(',')], 0);
    BalancedAppend(Tok(a) + [Punct(',')], Tok(b), 0);
  }

  lemma BracketsPiece(a: Lexemes)
    requires Args(a)
    ensures Piece(Brackets(a))
  {
    BracketsTokens(a);
    BracketsSpaced(a);
    GroupFacts(Tok(a));
  }

  lemma CallPiece(f: string, args: Lexemes)
    requires Args(args) && IsIdentifier(f) && AsWord(f) == Word(f)
    ensures Piece(Call(f, args)) && !IsGroup(Tok(Call(f, args)))
  {
    IdentWord(f);
    BracketsPiece(args);
    WellSpacedJoin([Word(f)], Punct('('), args);
    WellSpacedJoin([Word(f)] + [Punct('(')] + args, Punct(')'), []);
    assert [Word(f)] + [Punct('(')] + args + [Punct(')')] + [] == Call(f, args);
    DropSpacesAppend([Word(f)], Brackets(args));
    OneToken(Word(f));
    InertAppend([Word(f)], Tok(Brackets(args)), 0);
  }

  // ----- references, literals, operands -----

  /** A quoted path alternates quoted parts and dots. */
  lemma {:induction false} QuotePartsShape(parts: seq<string>)
    requires parts != [] && forall p <- parts :: ValidPart(p)
    ensures var ls := QuoteParts(parts);
            && |ls| == 2 * |parts| - 1
            && forall i :: 0 <= i < |ls| ==> ls[i] == if i % 2 == 0 then Quoted(parts[i / 2]) else Word(".")
  {
    if |parts| > 1 {
      QuotePartsShape(parts[1..]);
      var ls, rest := QuoteParts(parts), QuoteParts(parts[1..]);
      forall i | 2 <= i < |ls|
        ensures ls[i] == if i % 2 == 0 then Quoted(parts[i / 2]) else Word(".")
      {
        assert ls[i] == rest[i - 2];
        assert i % 2 == 0 ==> parts[1..][(i - 2) / 2] == parts[i / 2];
      }
    }
  }

  lemma {:induction false} FlatInert(ls: Lexemes)
    requires forall l <- ls :: !l.Punct? && !l.Key?
    ensures Inert(ls, 0)
  {
    if ls != [] {
      FlatInert(ls[1..]);
    }
  }

  lemma DotWord()
    ensures Lexable(Word("."))
  {
  }

  lemma QuotePartsPiece(parts: seq<string>)
    requires parts != [] && forall p <- parts :: ValidPart(p)
    ensures Piece(QuoteParts(parts))
  {
    hide IsSpace, AsWord, ValidPart;
    DotWord();
    var ls := QuoteParts(parts);
    QuotePartsShape(parts);
    forall i | 0 <= i < |ls|
      ensures Lexable(ls[i])
    {
      if i % 2 == 0 {
        ValidPartHasNoBacktick(parts[i / 2]);
      }
    }
    NoSpaces(ls);
    FlatInert(ls);
  }

  lemma ValidPartHasNoBacktick(p: string)
    requires ValidPart(p)
    ensures '`' !in p
  {
    if p[|p| - 1] == '\n' {
      assert p == p[..|p| - 1] + [p[|p| - 1]];
    }
  }

  lemma RefPiece(column: string, qualify: bool)
    requires Ref(column, qualify).Some?
    ensures Piece(Ref(column, qualify).value)
  {
    hide AsWord, IsSpace, ValidPart;
    DotWord();
    if '.' in column {
      QuotePartsPiece(SplitOn(column, '.'));
    } else if qualify {
      var ls := [Slot(INPUT_VIEW), Word("."), Slot(column)];
      NoSpaces(ls);
      FlatInert(ls);
    } else {
      OneToken(Slot(column));
    }
  }

  /** Every keyword begins with one of these characters. */
  lemma NotKeyword(s: string)
    requires s != "" && s[0] !in "AONBI=!<>"
    ensures AsWord(s) == Word(s)
  {
  }

  lemma NumberChar(c: char)
    requires IsDigit(c) || c in "+-.einfa"
    ensures IsPlain(c) && c !in "AONBI=!<>"
  {
  }

  lemma NumberWord(s: string)
    requires NumberText(s)
    ensures Lexable(Word(s))
  {
    hide AsWord, IsPlain, IsDigit;
    assert s[0] in s;
    NumberChar(s[0]);
    NotKeyword(s);
    forall c <- s
      ensures IsPlain(c)
    {
      NumberChar(c);
    }
  }

  /** Words of the emitted vocabulary that stand alone as operands. */
  lemma OperandWords()
    ensures Lexable(Word("TRUE")) && Lexable(Word("FALSE"))
    ensures Lexable(Word("NULL"))
    ensures Lexable(Word("0"))
  {
    hide Lexable;
    IdentWord("TRUE");
    IdentWord("FALSE");
    IdentWord("NULL");
    NumberWord("0");
  }

  lemma LiteralPiece(v: Value)
    requires ScalarOk(v)
    ensures Piece(Literal(v))
  {
    OperandWords();
    if v.Num? {
      NumberWord(v.text);
    }
    var l := Literal(v)[0];
    assert Literal(v) == [l] && Lexable(l) && !l.Punct? && !l.Key? && !l.Space?;
    OneToken(l);
  }

  lemma ValuePiece(v: Value, qualify: bool)
    requires ScalarOk(v) && ValueSql(v, qualify).Some?
    ensures Piece(ValueSql(v, qualify).value)
  {
    if v.Object? && v.column != "" {
      RefPiece(v.column, qualify);
    } else {
      LiteralPiece(v);
    }
  }

  // ----- what each operator means -----

  function ValueOf(v: Value, qualify: bool, env: Env): Option<real> {
    var ls :- ValueSql(v, qualify);
    Val(ls, env)
  }

  /** An OR of equalities over the list's values. */
  function InValues(x: Option<real>, vs: seq<Value>, qualify: bool, env: Env): Truth {
    if vs == [] then False
    else Or3(Compare(Eq, x, ValueOf(vs[0], qualify, env)), InValues(x, vs[1..], qualify, env))
  }

  /** lo <= x <= hi */
  function Within(x: Option<real>, lo: Option<real>, hi: Option<real>): Truth {
    And3(Compare(Ge, x, lo), Compare(Le, x, hi))
  }

  function Holds(call: Lexemes, env: Env): Truth {
    env.truth(Tok(call))
  }

  function RangeMeaning(left: Lexemes, op: RangeOp, value: Value, q: bool, env: Env): Truth {
    var lo, hi := ValueOf(Bounds(value).0, q, env), ValueOf(Bounds(value).1, q, env);
    match op
    case Between => Within(Val(left, env), lo, hi)
    case LengthBetween => Within(Val(Call("length", left), env), lo, hi)
    case In => InValues(Val(left, env), ItemsOf(value), q, env)
    case NotIn => Not3(InValues(Val(left, env), ItemsOf(value), q, env))
  }

  function NullMeaning(left: Lexemes, op: NullOp, value: Value, env: Env): Truth {
    match op
    case IsNull => Of(Val(left, env).None?)
    case IsNotNull => Of(Val(left, env).Some?)
    case IsAValid => Of(Val(TryCast(left, value), env).Some?)
    case IsNotAValid => Of(Val(TryCast(left, value), env).None?)
  }

  function CallMeaning(left: Lexemes, op: CallOp, value: Value, env: Env): Truth {
    var args := Comma(left, Literal(value));
    match op
    case Contains => Holds(Call("contains", args), env)
    case DoesNotContain => Not3(Holds(Call("contains", args), env))
    case StartsWith => Holds(Call("startswith", args), env)
    case EndsWith => Holds(Call("endswith", args), env)
  }

  function Matches(left: Lexemes, pattern: Lexemes, env: Env): Truth {
    Holds(Infix(left, Word("RLIKE"), pattern), env)
  }

  function RegexMeaning(left: Lexemes, op: RegexOp, value: Value, env: Env): Truth {
    match op
    case MatchesRegex => Matches(left, Literal(value), env)
    case DoesNotMatchRegex => Not3(Matches(left, Literal(value), env))
    case OnlyDigits => Matches(left, [Str("^[0-9]+$")], env)
    case IsUuid => Matches(left, [Str(UUID)], env)
    case IsIpv4 => Matches(left, [Str(IPV4)], env)
  }

  function LengthMeaning(left: Lexemes, op: LengthOp, value: Value, env: Env): Truth {
    var length, trimmed := Val(Call("length", left), env), Val(Call("length", Call("trim", left)), env);
    match op
    case HasLength => Compare(Eq, length, Val(Literal(value), env))
    case IsLongerThan => Not3(Compare(Le, length, Val(Literal(value), env)))
    case IsShorterThan => Compare(Lt, length, Val(Literal(value), env))
    case IsNotEmpty => Not3(Compare(Le, trimmed, Val(ZERO, env)))
    case IsEmpty => Compare(Eq, trimmed, Val(ZERO, env))
  }

  function ShapeMeaning(left: Lexemes, op: ShapeOp, env: Env): Truth {
    var x := Val(left, env);
    match op
    case HasOuterSpace => Not3(Compare(Eq, x, Val(Call("TRIM", left), env)))
    case HasNoOuterSpace => Compare(Eq, x, Val(Call("TRIM", left), env))
    case IsUppercase => Compare(Eq, x, Val(Call("upper", left), env))
    case IsLowercase => Compare(Eq, x, Val(Call("lower", left), env))
    case IsWholeNumber => Compare(Eq, x, Val(Call("round", left), env))
  }

  function ConstantMeaning(left: Lexemes, op: ConstantOp, value: Value, env: Env): Truth {
    var x, zero := Val(left, env), Val(ZERO, env);
    match op
    case IsTrue => Compare(Eq, x, Val([Word("TRUE")], env))
    case IsFalse => Compare(Eq, x, Val([Word("FALSE")], env))
    case IsPositive => Not3(Compare(Le, x, zero))
    case IsNegative => Compare(Lt, x, zero)
    case IsNonNegative => Not3(Compare(Lt, x, zero))
    case IsMultipleOf => Compare(Eq, Val(Call("mod", Comma(left, Literal(value))), env), zero)
  }

  function TimeMeaning(left: Lexemes, op: TimeOp, value: Value, env: Env): Truth {
    var x := Val(left, env);
    match op
    case IsInLast => Not3(Compare(Lt, x, Val(EarliestSql(value), env)))
    case IsInFuture => Not3(Compare(Le, x, Val(NOW, env)))
    case IsInPast => Compare(Lt, x, Val(NOW, env))
    case IsToday => Compare(Eq, Val(Call("to_date", left), env), Val(Call("current_date", []), env))
  }

  function CompareMeaning(op: CompareOp, x: Option<real>, v: Option<real>): Truth {
    match op
    case Cmp(c) => Compare(c, x, v)
    case Equals => Compare(Eq, x, v)
    case NotEquals => Not3(Compare(Eq, x, v))
    case Before => Compare(Lt, x, v)
    case After => Compare(Lt, v, x)
    case OnOrBefore => Not3(Compare(Lt, v, x))
    case OnOrAfter => Not3(Compare(Lt, x, v))
  }

  /** The intended condition on the operand `left`. */
  function Meaning(left: Lexemes, op: Operator, value: Value, q: bool, env: Env): Truth {
    match op
    case Compares(o) => CompareMeaning(o, Val(left, env), ValueOf(value, q, env))
    case Ranges(o) => RangeMeaning(left, o, value, q, env)
    case Nulls(o) => NullMeaning(left, o, value, env)
    case Calls(o) => CallMeaning(left, o, value, env)
    case Regexes(o) => RegexMeaning(left, o, value, env)
    case Lengths(o) => LengthMeaning(left, o, value, env)
    case Shapes(o) => ShapeMeaning(left, o, env)
    case Constants(o) => ConstantMeaning(left, o, value, env)
    case Times(o) => TimeMeaning(left, o, value, env)
    case Sentiment(positive) =>
      Compare(Eq, Val(Call("ai_analyze_sentiment", left), env),
              Val([Str(if positive then "positive" else "negative")], env))
    case PassesLuhn =>
      And3(Not3(Compare(Le, Val(Call("length", Digits(left)), env), Val(ZERO, env))),
           Holds(Call("luhn_check", Digits(left)), env))
    case Unknown => SqlReader.Unknown
  }

  /** A fragment that can stand in the row stack. */
  predicate Fragment(ls: Lexemes) {
    ls != [] && WellSpaced(ls) && Closed(Tok(ls))
  }

  /** A fragment with this reading; None when it has none. */
  predicate ReadsAs(ls: Lexemes, m: Option<Truth>, env: Env) {
    Fragment(ls) && ReadOr(Tok(ls), env) == m
  }

  /** A fragment read as `m`. */
  predicate Reads(ls: Lexemes, m: Truth, env: Env) {
    ReadsAs(ls, Some(m), env)
  }

  /** A list test without items: `IN ()` and `NOT IN ()` are emitted, and are no SQL. */
  predicate EmptyList(op: Operator, value: Value) {
    op.Ranges? && (op.range.In? || op.range.NotIn?) && ItemsOf(value) == []
  }

  // ----- one lemma per shape of text -----

  lemma ComparisonReads(a: Lexemes, op: Comparison, b: Lexemes, env: Env)
    requires Piece(a) && Piece(b)
    ensures Reads(Infix(a, Key(KCmp(op)), b), Compare(op, Val(a, env), Val(b, env)), env)
    ensures ReadAnd(Tok(Infix(a, Key(KCmp(op)), b)), env) == ReadOr(Tok(Infix(a, Key(KCmp(op)), b)), env)
  {
    InfixTokens(a, Key(KCmp(op)), b);
    InfixSpaced(a, Key(KCmp(op)), b);
    ReadComparison(Tok(a), op, Tok(b), env);
  }

  lemma IsNullReads(a: Lexemes, env: Env)
    requires Piece(a)
    ensures Reads(IsNullSql(a), Of(Val(a, env).None?), env)
  {
    var nul := [Word("NULL")];
    IdentPiece("NULL");
    InfixTokens(a, Key(KIs), nul);
    InfixSpaced(a, Key(KIs), nul);
    OneToken(Word("NULL"));
    ReadIsNull(Tok(a), env);
  }

  lemma IsNotNullReads(a: Lexemes, env: Env)
    requires Piece(a)
    ensures Reads(IsNotNullSql(a), Of(Val(a, env).Some?), env)
  {
    var nul, b := [Word("NULL")], Sp(a, [Key(KIs)]);
    IdentPiece("NULL");
    SpTokens(a, [Key(KIs)]);
    SpSpaced(a, [Key(KIs)]);
    OneToken(Key(KIs));
    OneToken(Word("NULL"));
    InfixTokens(b, Key(KNot), nul);
    InfixSpaced(b, Key(KNot), nul);
    ReadIsNotNull(Tok(a), env);
  }

  lemma BetweenText(a: Lexemes, lo: Lexemes, hi: Lexemes)
    requires Piece(a) && Piece(lo) && Piece(hi)
    ensures WellSpaced(BetweenSql(a, lo, hi))
    ensures Tok(BetweenSql(a, lo, hi)) == Tok(a) + [Key(KBetween)] + Tok(lo) + [Key(KAnd)] + Tok(hi)
  {
    var b := Infix(a, Key(KBetween), lo);
    InfixTokens(a, Key(KBetween), lo);
    InfixSpaced(a, Key(KBetween), lo);
    InfixTokens(b, Key(KAnd), hi);
    InfixSpaced(b, Key(KAnd), hi);
  }

  lemma BetweenReads(a: Lexemes, lo: Lexemes, hi: Lexemes, env: Env)
    requires Piece(a) && Piece(lo) && Piece(hi)
    ensures Reads(BetweenSql(a, lo, hi), Within(Val(a, env), Val(lo, env), Val(hi, env)), env)
  {
    BetweenText(a, lo, hi);
    ReadBetween(Tok(a), Tok(lo), Tok(hi), env);
  }

  lemma TruthReads(a: Lexemes, env: Env)
    requires Piece(a) && !IsGroup(Tok(a))
    ensures Reads(a, Holds(a, env), env)
    ensures ReadAnd(Tok(a), env) == ReadOr(Tok(a), env)
    ensures Reads(Sp([Key(KNot)], a), Not3(Holds(a, env)), env)
  {
    SpTokens([Key(KNot)], a);
    SpSpaced([Key(KNot)], a);
    ReadTruth(Tok(a), env);
    OneToken(Key(KNot));
  }

  lemma RlikeReads(a: Lexemes, b: Lexemes, env: Env)
    requires Piece(a) && Piece(b)
    ensures Reads(Infix(a, Word("RLIKE"), b), Holds(Infix(a, Word("RLIKE"), b), env), env)
  {
    var ls := Infix(a, Word("RLIKE"), b);
    InfixPiece(a, Word("RLIKE"), b);
    InfixTokens(a, Word("RLIKE"), b);
    NotAGroup(Tok(a), [Word("RLIKE")] + Tok(b));
    assert Tok(ls) == Tok(a) + ([Word("RLIKE")] + Tok(b));
    TruthReads(ls, env);
  }

  lemma NegatedBracketsText(ls: Lexemes)
    requires Args(ls)
    ensures var n := Sp([Key(KNot)], Brackets(ls));
            WellSpaced(n) && Tok(n) == [Key(KNot)] + Group(Tok(ls)) && Closed(Tok(n))
  {
    BracketsTokens(ls);
    BracketsSpaced(ls);
    SpTokens([Key(KNot)], Brackets(ls));
    SpSpaced([Key(KNot)], Brackets(ls));
    OneToken(Key(KNot));
    GroupFacts(Tok(ls));
    OperatorTail(KNot, Group(Tok(ls)));
  }

  /** `NOT (P)` is read as the negation of `P`. */
  lemma NegatedReads(ls: Lexemes, m: Truth, env: Env)
    requires Reads(ls, m, env)
    ensures Reads(Sp([Key(KNot)], Brackets(ls)), Not3(m), env)
  {
    NegatedBracketsText(ls);
    ReadNegatedGroup(Tok(ls), env);
  }

  lemma OneItem(x: Option<real>, a: Tokens, env: Env)
    requires Operand(a)
    ensures InList(x, Items(a), env) == Or3(Compare(Eq, x, env.value(a)), False)
    ensures [] !in Items(a)
  {
    CommaInert(a, [], 0);
    assert a + [] == a;
    assert Items(a) == [a] && [a][1..] == [];
  }

  /** A rendered list is read item by item; only the empty list lacks one. */
  lemma {:induction false} ListReads(x: Option<real>, vs: seq<Value>, q: bool, env: Env)
    requires forall v <- vs :: ScalarOk(v)
    requires QuoteList(vs, q).Some?
    ensures var ls := QuoteList(vs, q).value;
            && Args(ls)
            && ([] in Items(Tok(ls)) <==> vs == [])
            && (vs != [] ==> InList(x, Items(Tok(ls)), env) == InValues(x, vs, q, env))
  {
    hide Compare;
    if vs != [] {
      var first, ls := ValueSql(vs[0], q).value, QuoteList(vs, q).value;
      ValuePiece(vs[0], q);
      PieceIsArgs(first);
      if |vs| == 1 {
        assert ls == first && InValues(x, vs[1..], q, env) == False;
        OneItem(x, Tok(first), env);
        assert Args(ls);
      } else {
        var rest := QuoteList(vs[1..], q).value;
        ListReads(x, vs[1..], q, env);
        CommaArgs(first, rest);
        CommaTokens(first, rest);
        ItemsComma(Tok(first), Tok(rest));
      }
    }
  }

  lemma ItemsComma(a: Tokens, b: Tokens)
    requires Operand(a)
    ensures Items(a + [Punct(',')] + b) == [a] + Items(b)
  {
    var ts := a + [Punct(',')] + b;
    var tail := [Punct(',')] + b;
    assert ts == a + tail;
    CommaInert(a, tail, 0);
    assert FirstComma(tail, 0) == 0;
    assert ts[..|a|] == a && ts[|a| + 1..] == b;
  }

  lemma InReads(a: Lexemes, vs: seq<Value>, q: bool, env: Env)
    requires Piece(a) && (forall v <- vs :: ScalarOk(v)) && QuoteList(vs, q).Some?
    ensures var list := Brackets(QuoteList(vs, q).value);
            var m := InValues(Val(a, env), vs, q, env);
            && ReadsAs(Infix(a, Key(KIn), list), if vs == [] then None else Some(m), env)
            && ReadsAs(Infix(Sp(a, [Key(KNot)]), Key(KIn), list), if vs == [] then None else Some(Not3(m)), env)
  {
    var inner := QuoteList(vs, q).value;
    var list := Brackets(inner);
    ListReads(Val(a, env), vs, q, env);
    BracketsTokens(inner);
    BracketsSpaced(inner);
    InfixTokens(a, Key(KIn), list);
    InfixSpaced(a, Key(KIn), list);
    ReadIn(Tok(a), Tok(inner), env);
    SpTokens(a, [Key(KNot)]);
    SpSpaced(a, [Key(KNot)]);
    InfixTokens(Sp(a, [Key(KNot)]), Key(KIn), list);
    InfixSpaced(Sp(a, [Key(KNot)]), Key(KIn), list);
    ReadNotIn(Tok(a), Tok(inner), env);
    OneToken(Key(KNot));
  }

  /** A conjunction written without brackets, as the checksum row writes it. */
  lemma ConjunctionReads(a: Lexemes, m: Truth, b: Lexemes, n: Truth, env: Env)
    requires Reads(a, m, env) && Reads(b, n, env)
    ensures Reads(Infix(a, Key(KAnd), b), And3(m, n), env)
  {
    InfixTokens(a, Key(KAnd), b);
    InfixSpaced(a, Key(KAnd), b);
    ClosedAnd(Tok(a), Tok(b));
    ReadAndAppend(Tok(a), Tok(b), env);
  }

  // ----- the functions of the vocabulary -----

  lemma CallOne(f: string, a: Lexemes)
    requires Piece(a) && IsIdentifier(f) && AsWord(f) == Word(f)
    ensures Piece(Call(f, a)) && !IsGroup(Tok(Call(f, a)))
  {
    PieceIsArgs(a);
    CallPiece(f, a);
  }

  lemma CallTwo(f: string, a: Lexemes, b: Lexemes)
    requires Piece(a) && Piece(b) && IsIdentifier(f) && AsWord(f) == Word(f)
    ensures Piece(Call(f, Comma(a, b))) && !IsGroup(Tok(Call(f, Comma(a, b))))
  {
    PieceIsArgs(a);
    PieceIsArgs(b);
    CommaArgs(a, b);
    CallPiece(f, Comma(a, b));
  }

  lemma StrPiece(s: string)
    ensures Piece([Str(s)])
  {
    OneToken(Str(s));
  }

  lemma QuotedPiece(l: Lexeme)
    requires Lexable(l) && InQuotes(l)
    ensures Piece([l])
  {
    OneToken(l);
  }

  lemma NowPiece()
    ensures Piece(NOW)
  {
    CallPiece("current_timestamp", []);
  }

  lemma TodayPiece()
    ensures Piece(Call("current_date", []))
  {
    CallPiece("current_date", []);
  }

  lemma LengthPiece(a: Lexemes)
    requires Piece(a)
    ensures Piece(Call("length", a))
  {
    CallOne("length", a);
  }

  lemma TrimPiece(a: Lexemes)
    requires Piece(a)
    ensures Piece(Call("trim", a)) && Piece(Call("TRIM", a))
  {
    CallOne("trim", a);
    CallOne("TRIM", a);
  }

  lemma CasePiece(a: Lexemes)
    requires Piece(a)
    ensures Piece(Call("upper", a)) && Piece(Call("lower", a))
  {
    CallOne("upper", a);
    CallOne("lower", a);
  }

  lemma RoundPiece(a: Lexemes)
    requires Piece(a)
    ensures Piece(Call("round", a)) && Piece(Call("to_date", a))
  {
    CallOne("round", a);
    CallOne("to_date", a);
  }

  lemma SentimentPiece(a: Lexemes)
    requires Piece(a)
    ensures Piece(Call("ai_analyze_sentiment", a))
  {
    CallOne("ai_analyze_sentiment", a);
  }

  lemma LuhnPiece(a: Lexemes)
    requires Piece(a)
    ensures Piece(Call("luhn_check", a)) && !IsGroup(Tok(Call("luhn_check", a)))
  {
    CallOne("luhn_check", a);
  }

  lemma ModPiece(a: Lexemes, b: Lexemes)
    requires Piece(a) && Piece(b)
    ensures Piece(Call("mod", Comma(a, b)))
  {
    CallTwo("mod", a, b);
  }

  lemma DigitsPiece(a: Lexemes)
    requires Piece(a)
    ensures Piece(Digits(a))
  {
    var any, none := [Str("[^0-9]")], [Str("")];
    StrPiece("[^0-9]");
    StrPiece("");
    PieceIsArgs(a);
    PieceIsArgs(any);
    PieceIsArgs(none);
    CommaArgs(a, any);
    CommaArgs(Comma(a, any), none);
    CallPiece("regexp_replace", Comma(Comma(a, any), none));
  }

  lemma SmallIntegerTypeWords()
    ensures Lexable(Word("TINYINT")) && Lexable(Word("SMALLINT"))
  {
    IdentWord("TINYINT");
    IdentWord("SMALLINT");
  }

  lemma IntegerTypeWords()
    ensures Lexable(Word("INT")) && Lexable(Word("BIGINT"))
  {
    IdentWord("INT");
    IdentWord("BIGINT");
  }

  lemma RealTypeWords()
    ensures Lexable(Word("FLOAT")) && Lexable(Word("DOUBLE")) && Lexable(Word("DECIMAL"))
  {
    IdentWord("FLOAT");
    IdentWord("DOUBLE");
    IdentWord("DECIMAL");
  }

  lemma OtherTypeWords()
    ensures Lexable(Word("BOOLEAN")) && Lexable(Word("BINARY"))
  {
    IdentWord("BOOLEAN");
    IdentWord("BINARY");
  }

  lemma TimeTypeWords()
    ensures Lexable(Word("DATE")) && Lexable(Word("TIMESTAMP")) && Lexable(Word("TIMESTAMP_NTZ"))
  {
    IdentWord("DATE");
    IdentWord("TIMESTAMP");
    IdentWord("TIMESTAMP_NTZ");
  }

  lemma ValidityTypeWord(v: Value)
    requires ValidityType(v) != ""
    ensures Lexable(Word(ValidityType(v)))
  {
    hide Lexable;
    SmallIntegerTypeWords();
    IntegerTypeWords();
    RealTypeWords();
    OtherTypeWords();
    TimeTypeWords();
  }

  lemma TryCastPiece(a: Lexemes, v: Value)
    requires Piece(a) && ValidityType(v) != ""
    ensures Piece(TryCast(a, v))
  {
    var t := ValidityType(v);
    ValidityTypeWord(v);
    WordPiece(t);
    IdentWord("AS");
    InfixPiece(a, Word("AS"), [Word(t)]);
    CallOne("TRY_CAST", Infix(a, Word("AS"), [Word(t)]));
  }

  lemma SpPiece(a: Lexemes, b: Lexemes)
    requires Piece(a) && Piece(b)
    ensures Piece(Sp(a, b))
  {
    SpTokens(a, b);
    SpSpaced(a, b);
    InertAppend(Tok(a), Tok(b), 0);
  }

  lemma IntervalPiece(v: Value)
    ensures Piece(EarliestSql(v))
  {
    hide Piece;
    var i := IntervalLiteral(v);
    IdentPiece("INTERVAL");
    QuotedPiece(i);
    SpPiece([Word("INTERVAL")], [i]);
    NowPiece();
    assert Lexable(Word("-"));
    InfixPiece(NOW, Word("-"), Sp([Word("INTERVAL")], [i]));
  }

  // ----- every operator's fragment reads as its meaning -----

  lemma CompareRows(left: Lexemes, op: CompareOp, value: Value, q: bool, env: Env)
    requires Piece(left) && ValueOk(value) && ValueSql(value, q).Some?
    ensures Reads(Infix(left, Key(KCmp(ComparisonOf(op))), ValueSql(value, q).value),
                  CompareMeaning(op, Val(left, env), ValueOf(value, q, env)), env)
  {
    hide Val, Tok, DropSpaces, Infix, Call;
    hide Piece, ReadsAs;
    ValuePiece(value, q);
    ComparisonReads(left, ComparisonOf(op), ValueSql(value, q).value, env);
  }

  lemma BetweenRows(left: Lexemes, op: RangeOp, value: Value, q: bool, env: Env)
    requires Piece(left) && ValueOk(value) && RangeSql(left, op, value, q).Some?
    ensures ReadsAs(RangeSql(left, op, value, q).value,
                    if EmptyList(Ranges(op), value) then None else Some(RangeMeaning(left, op, value, q, env)), env)
  {
    hide Val, Tok, DropSpaces, Infix, Call;
    hide Piece, ReadsAs;
    if op.In? || op.NotIn? {
      InReads(left, ItemsOf(value), q, env);
    } else {
      ValuePiece(Bounds(value).0, q);
      ValuePiece(Bounds(value).1, q);
      LengthPiece(left);
      BetweenReads(if op.Between? then left else Call("length", left),
                   ValueSql(Bounds(value).0, q).value, ValueSql(Bounds(value).1, q).value, env);
    }
  }

  lemma NullRows(left: Lexemes, op: NullOp, value: Value, env: Env)
    requires Piece(left) && NullSql(left, op, value) != []
    ensures Reads(NullSql(left, op, value), NullMeaning(left, op, value, env), env)
  {
    hide Val, Tok, DropSpaces, Infix, Call;
    hide Piece, ReadsAs;
    if op.IsAValid? || op.IsNotAValid? {
      TryCastPiece(left, value);
      IsNullReads(TryCast(left, value), env);
      IsNotNullReads(TryCast(left, value), env);
    } else {
      IsNullReads(left, env);
      IsNotNullReads(left, env);
    }
  }

  lemma CallRows(left: Lexemes, op: CallOp, value: Value, env: Env)
    requires Piece(left) && ValueOk(value)
    ensures Reads(CallSql(left, op, value), CallMeaning(left, op, value, env), env)
  {
    hide Val, Tok, DropSpaces, Infix, Call;
    hide Piece, ReadsAs;
    LiteralPiece(value);
    match op
    case StartsWith =>
      CallTwo("startswith", left, Literal(value));
      TruthReads(Call("startswith", Comma(left, Literal(value))), env);
    case EndsWith =>
      CallTwo("endswith", left, Literal(value));
      TruthReads(Call("endswith", Comma(left, Literal(value))), env);
    case _ =>
      CallTwo("contains", left, Literal(value));
      TruthReads(Call("contains", Comma(left, Literal(value))), env);
  }

  lemma RegexRows(left: Lexemes, op: RegexOp, value: Value, env: Env)
    requires Piece(left) && ValueOk(value)
    ensures Reads(RegexSql(left, op, value), RegexMeaning(left, op, value, env), env)
  {
    hide Val, Tok, DropSpaces, Infix, Call;
    hide Piece, ReadsAs;
    var right := match op
                 case OnlyDigits => [Str("^[0-9]+$")]
                 case IsUuid => [Str(UUID)]
                 case IsIpv4 => [Str(IPV4)]
                 case _ => Literal(value);
    LiteralPiece(value);
    if right != Literal(value) {
      StrPiece(right[0].value);
    }
    IdentWord("RLIKE");
    RlikeReads(left, right, env);
    if op.DoesNotMatchRegex? {
      NegatedReads(Infix(left, Word("RLIKE"), right), Matches(left, right, env), env);
    }
  }

  lemma ZeroPiece()
    ensures Piece(ZERO)
  {
    OperandWords();
    WordPiece("0");
  }

  lemma LengthRows(left: Lexemes, op: LengthOp, value: Value, env: Env)
    requires Piece(left) && ValueOk(value)
    ensures Reads(LengthSql(left, op, value), LengthMeaning(left, op, value, env), env)
  {
    hide Val, Tok, DropSpaces, Infix, Call;
    hide Piece, ReadsAs;
    var c := match op case HasLength => Eq case IsEmpty => Eq case IsShorterThan => Lt case _ => Gt;
    if op.IsEmpty? || op.IsNotEmpty? {
      ZeroPiece();
      TrimPiece(left);
      LengthPiece(Call("trim", left));
      ComparisonReads(Call("length", Call("trim", left)), c, ZERO, env);
    } else {
      LiteralPiece(value);
      LengthPiece(left);
      ComparisonReads(Call("length", left), c, Literal(value), env);
    }
  }

  lemma ShapeRows(left: Lexemes, op: ShapeOp, env: Env)
    requires Piece(left)
    ensures Reads(ShapeSql(left, op), ShapeMeaning(left, op, env), env)
  {
    hide Val, Tok, DropSpaces, Infix, Call;
    hide Piece, ReadsAs;
    TrimPiece(left);
    CasePiece(left);
    RoundPiece(left);
    match op
    case HasOuterSpace => ComparisonReads(left, Ne, Call("TRIM", left), env);
    case HasNoOuterSpace => ComparisonReads(left, Eq, Call("TRIM", left), env);
    case IsUppercase => ComparisonReads(left, Eq, Call("upper", left), env);
    case IsLowercase => ComparisonReads(left, Eq, Call("lower", left), env);
    case IsWholeNumber => ComparisonReads(left, Eq, Call("round", left), env);
  }

  lemma ConstantRows(left: Lexemes, op: ConstantOp, value: Value, env: Env)
    requires Piece(left) && ValueOk(value)
    ensures Reads(ConstantSql(left, op, value), ConstantMeaning(left, op, value, env), env)
  {
    hide Val, Tok, DropSpaces, Infix, Call;
    hide Piece, ReadsAs;
    ZeroPiece();
    match op
    case IsTrue =>
      OperandWords();
      WordPiece("TRUE");
      ComparisonReads(left, Eq, [Word("TRUE")], env);
    case IsFalse =>
      OperandWords();
      WordPiece("FALSE");
      ComparisonReads(left, Eq, [Word("FALSE")], env);
    case IsPositive => ComparisonReads(left, Gt, ZERO, env);
    case IsNegative => ComparisonReads(left, Lt, ZERO, env);
    case IsNonNegative => ComparisonReads(left, Ge, ZERO, env);
    case IsMultipleOf =>
      LiteralPiece(value);
      ModPiece(left, Literal(value));
      ComparisonReads(Call("mod", Comma(left, Literal(value))), Eq, ZERO, env);
  }

  lemma TimeRows(left: Lexemes, op: TimeOp, value: Value, env: Env)
    requires Piece(left) && ValueOk(value)
    ensures Reads(TimeSql(left, op, value), TimeMeaning(left, op, value, env), env)
  {
    hide Val, Tok, DropSpaces, Infix, Call;
    hide Piece, ReadsAs;
    NowPiece();
    match op
    case IsInLast =>
      IntervalPiece(value);
      ComparisonReads(left, Ge, EarliestSql(value), env);
    case IsInFuture => ComparisonReads(left, Gt, NOW, env);
    case IsInPast => ComparisonReads(left, Lt, NOW, env);
    case IsToday =>
      TodayPiece();
      RoundPiece(left);
      ComparisonReads(Call("to_date", left), Eq, Call("current_date", []), env);
  }

  lemma LuhnRow(left: Lexemes, env: Env)
    requires Piece(left)
    ensures Reads(LuhnSql(left), Meaning(left, PassesLuhn, Null, false, env), env)
  {
    hide Val, Tok, DropSpaces, Infix, Call;
    hide Piece, ReadsAs;
    var count, check := Call("length", Digits(left)), Call("luhn_check", Digits(left));
    DigitsPiece(left);
    LengthPiece(Digits(left));
    LuhnPiece(Digits(left));
    ZeroPiece();
    ComparisonReads(count, Gt, ZERO, env);
    TruthReads(check, env);
    ConjunctionReads(Infix(count, Key(KCmp(Gt)), ZERO), Compare(Gt, Val(count, env), Val(ZERO, env)),
                     check, Holds(check, env), env);
  }

  /** Every operator of the vocabulary: the text the compiler emits for a row is read,
      with SQL precedence, as that operator's condition on its operand, except that a list
      test without items has no reading. */
  lemma EveryOperatorReads(left: Lexemes, op: Operator, value: Value, q: bool, env: Env)
    requires Piece(left) && ValueOk(value)
    requires RowSql(left, op, value, q).Some? && RowSql(left, op, value, q).value != []
    ensures ReadsAs(RowSql(left, op, value, q).value,
                    if EmptyList(op, value) then None else Some(Meaning(left, op, value, q, env)), env)
  {
    hide Piece, ReadsAs, RangeSql, NullSql, CallSql, RegexSql, LengthSql, ShapeSql, ConstantSql, TimeSql, RangeMeaning,
         NullMeaning, CallMeaning, RegexMeaning, LengthMeaning, ShapeMeaning, ConstantMeaning, TimeMeaning;
    match op
    case Compares(o) => CompareRows(left, o, value, q, env);
    case Ranges(o) => BetweenRows(left, o, value, q, env);
    case Nulls(o) => NullRows(left, o, value, env);
    case Calls(o) => CallRows(left, o, value, env);
    case Regexes(o) => RegexRows(left, o, value, env);
    case Lengths(o) => LengthRows(left, o, value, env);
    case Shapes(o) => ShapeRows(left, o, env);
    case Constants(o) => ConstantRows(left, o, value, env);
    case Times(o) => TimeRows(left, o, value, env);
    case Sentiment(positive) =>
      SentimentPiece(left);
      StrPiece(if positive then "positive" else "negative");
      ComparisonReads(Call("ai_analyze_sentiment", left), Eq, [Str(if positive then "positive" else "negative")], env);
    case PassesLuhn => LuhnRow(left, env);
  }
}
