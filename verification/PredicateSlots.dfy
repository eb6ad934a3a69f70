/**
 The slots a compiled predicate declares: exactly the own-table columns of the rows
 that compile, in order of first appearance, and the same ones with the input-view
 qualifier as without it.
 */
module PredicateSlots {
  import opened Text
  import opened SqlText
  import opened LowcodeRows
  import opened LowcodeMeaning
  import opened LowcodeStack
  import opened SlotTokens

  // ----- rows with plain columns and literals -----

  /** An own-table column name, or a dotted path whose parts hold no brace. */
  predicate PlainColumn(c: string) {
    c == "" || (if '.' in c then '{' !in c else IsIdentifier(c) && c != INPUT_VIEW)
  }

  predicate PlainScalar(v: Value) {
    match v
    case Text(s) => NoOpening(s)
    case List(_, repr) => NoOpening(repr)
    case Object(column, _, _, aggregate, repr) =>
      && PlainColumn(column) && NoOpening(repr) && NoOpening(IntervalText(v))
      && (aggregate.Some? ==> PlainColumn(aggregate.value.column))
    case _ => true
  }

  predicate PlainValue(v: Value) {
    PlainScalar(v) && (v.List? ==> forall x <- v.items :: PlainScalar(x))
  }

  predicate PlainRow(row: Row) {
    match row
    case NotAnObject => true
    case Single(column, _, value, _) => PlainColumn(column) && PlainValue(value)
    case Aggregated(left, _, value, _) => PlainColumn(left.column) && PlainValue(value)
  }

  // ----- the columns a row uses -----

  function OwnColumn(c: string): seq<string> {
    if c == "" || '.' in c then [] else [c]
  }

  function ValueColumns(v: Value): seq<string> {
    if v.Object? then OwnColumn(v.column) else []
  }

  function ListColumns(vs: seq<Value>): seq<string> {
    if vs == [] then [] else ValueColumns(vs[0]) + ListColumns(vs[1..])
  }

  /** The columns on the operator's right-hand side, when it takes column references. */
  function OperandColumns(op: Operator, value: Value): seq<string> {
    match op
    case Compares(_) => ValueColumns(value)
    case Ranges(In) => ListColumns(ItemsOf(value))
    case Ranges(NotIn) => ListColumns(ItemsOf(value))
    case Ranges(_) => ValueColumns(Bounds(value).0) + ValueColumns(Bounds(value).1)
    case _ => []
  }

  function RowColumns(row: Row): seq<string> {
    match row
    case NotAnObject => []
    case Single(column, op, value, _) => OwnColumn(column) + OperandColumns(op, value)
    case Aggregated(left, _, value, _) =>
      OwnColumn(left.column)
      + (if ComparesAggregates(row) && !value.aggregate.value.aggregate.UnknownAggregate?
         then OwnColumn(value.aggregate.value.column) else [])
  }

  /** The columns of the rows that compile, in order, with repeats. */
  function UsedColumns(rows: seq<Row>, q: bool): seq<string> {
    if rows == [] then []
    else (if Compiles(rows[0], q) then RowColumns(rows[0]) else []) + UsedColumns(rows[1..], q)
  }

  // ----- qualified text and its unqualified twin -----

  predicate Mild(l: Lexeme) {
    match l
    case Slot(name) => IsIdentifier(name)
    case Str(value) => NoOpening(value)
    case Quoted(part) => NoOpening(part)
    case Raw(text) => NoOpening(text) && EndsClean(text)
    case _ => true
  }

  predicate AllMild(ls: Lexemes) {
    forall l <- ls :: Mild(l)
  }

  /** `b` is `a` without the input-view qualifiers. */
  predicate Twin(a: Lexemes, b: Lexemes) {
    && AllMild(a) && AllMild(b)
    && QualifiersOnly(a, INPUT_VIEW) && Unqualified(a, INPUT_VIEW) == b
    && Slot(INPUT_VIEW) !in b
  }

  lemma {:induction false} UnqualifiedAppend(a: Lexemes, c: Lexemes)
    requires QualifiersOnly(a, INPUT_VIEW)
    ensures Unqualified(a + c, INPUT_VIEW) == Unqualified(a, INPUT_VIEW) + Unqualified(c, INPUT_VIEW)
    decreases |a|
  {
    if a == [] {
      assert a + c == c;
    } else {
      var n := if a[0] == Slot(INPUT_VIEW) then 2 else 1;
      assert (a + c)[n..] == a[n..] + c;
      assert forall i :: 0 <= i < |a[n..]| ==> a[n..][i] == a[n + i];
      UnqualifiedAppend(a[n..], c);
    }
  }

  lemma TwinAppend(a: Lexemes, b: Lexemes, c: Lexemes, d: Lexemes)
    requires Twin(a, b) && Twin(c, d)
    ensures Twin(a + c, b + d)
  {
    UnqualifiedAppend(a, c);
    forall i | 0 <= i < |a + c| && (a + c)[i] == Slot(INPUT_VIEW)
      ensures i + 1 < |a + c| && (a + c)[i + 1] == Word(".")
    {
      if i < |a| {
        assert a[i] == Slot(INPUT_VIEW);
      } else {
        assert c[i - |a|] == Slot(INPUT_VIEW);
      }
    }
  }

  lemma {:induction false} TwinSelf(ls: Lexemes)
    requires AllMild(ls) && Slot(INPUT_VIEW) !in ls
    ensures Twin(ls, ls)
  {
    if ls != [] {
      TwinSelf(ls[1..]);
    }
  }

  lemma TwinSp(a: Lexemes, b: Lexemes, c: Lexemes, d: Lexemes)
    requires Twin(a, b) && Twin(c, d)
    ensures Twin(Sp(a, c), Sp(b, d))
  {
    TwinSelf([Space]);
    TwinAppend(a, b, [Space], [Space]);
    TwinAppend(a + [Space], b + [Space], c, d);
  }

  lemma TwinInfix(a: Lexemes, b: Lexemes, op: Lexeme, c: Lexemes, d: Lexemes)
    requires Twin(a, b) && Twin(c, d) && (op.Key? || op.Word?)
    ensures Twin(Infix(a, op, c), Infix(b, op, d))
  {
    TwinSelf([op]);
    TwinSp(a, b, [op], [op]);
    TwinSp(Sp(a, [op]), Sp(b, [op]), c, d);
  }

  lemma TwinBrackets(a: Lexemes, b: Lexemes)
    requires Twin(a, b)
    ensures Twin(Brackets(a), Brackets(b))
  {
    TwinSelf([Punct('(')]);
    TwinSelf([Punct(')')]);
    TwinAppend([Punct('(')], [Punct('(')], a, b);
    TwinAppend([Punct('(')] + a, [Punct('(')] + b, [Punct(')')], [Punct(')')]);
  }

  lemma TwinCall(f: string, a: Lexemes, b: Lexemes)
    requires Twin(a, b)
    ensures Twin(Call(f, a), Call(f, b))
  {
    TwinSelf([Word(f)]);
    TwinBrackets(a, b);
    TwinAppend([Word(f)], [Word(f)], Brackets(a), Brackets(b));
  }

  lemma TwinComma(a: Lexemes, b: Lexemes, c: Lexemes, d: Lexemes)
    requires Twin(a, b) && Twin(c, d)
    ensures Twin(Comma(a, c), Comma(b, d))
  {
    TwinSelf([Punct(',')]);
    TwinSelf([Space]);
    TwinAppend(a, b, [Punct(',')], [Punct(',')]);
    TwinAppend([Space], [Space], c, d);
    TwinAppend(a + [Punct(',')], b + [Punct(',')], [Space] + c, [Space] + d);
  }

  // ----- slots of composed text -----

  lemma {:induction false} NamesAppend(a: Lexemes, b: Lexemes)
    ensures SlotNames(a + b) == SlotNames(a) + SlotNames(b)
  {
    if a == [] {
      assert a + b == b;
    } else {
      assert (a + b)[1..] == a[1..] + b;
      NamesAppend(a[1..], b);
    }
  }

  lemma {:induction false} NoNames(ls: Lexemes)
    requires forall l <- ls :: !l.Slot?
    ensures SlotNames(ls) == []
  {
    if ls != [] {
      NoNames(ls[1..]);
    }
  }

  lemma NamesSp(a: Lexemes, b: Lexemes)
    ensures SlotNames(Sp(a, b)) == SlotNames(a) + SlotNames(b)
  {
    NoNames([Space]);
    NamesAppend(a, [Space]);
    NamesAppend(a + [Space], b);
  }

  lemma NamesInfix(a: Lexemes, op: Lexeme, b: Lexemes)
    requires !op.Slot?
    ensures SlotNames(Infix(a, op, b)) == SlotNames(a) + SlotNames(b)
  {
    NoNames([op]);
    NamesSp(a, [op]);
    NamesSp(Sp(a, [op]), b);
  }

  lemma NamesBrackets(a: Lexemes)
    ensures SlotNames(Brackets(a)) == SlotNames(a)
  {
    NoNames([Punct('(')]);
    NoNames([Punct(')')]);
    NamesAppend([Punct('(')], a);
    NamesAppend([Punct('(')] + a, [Punct(')')]);
  }

  lemma NamesCall(f: string, a: Lexemes)
    ensures SlotNames(Call(f, a)) == SlotNames(a)
  {
    NoNames([Word(f)]);
    NamesBrackets(a);
    NamesAppend([Word(f)], Brackets(a));
  }

  lemma NamesComma(a: Lexemes, b: Lexemes)
    ensures SlotNames(Comma(a, b)) == SlotNames(a) + SlotNames(b)
  {
    NoNames([Punct(',')]);
    NoNames([Space]);
    NamesAppend(a, [Punct(',')]);
    NamesAppend([Space], b);
    NamesAppend(a + [Punct(',')], [Space] + b);
  }

  // ----- references and operands -----

  lemma {:induction false} PartsHaveNoBrace(s: string)
    requires '{' !in s
    ensures forall p <- SplitOn(s, '.') :: '{' !in p
  {
    if s != "" {
      PartsHaveNoBrace(s[1..]);
    }
  }

  lemma QuotePartsTwin(parts: seq<string>)
    requires parts != [] && (forall p <- parts :: ValidPart(p)) && (forall p <- parts :: '{' !in p)
    ensures Twin(QuoteParts(parts), QuoteParts(parts)) && SlotNames(QuoteParts(parts)) == []
  {
    var ls := QuoteParts(parts);
    QuotePartsShape(parts);
    forall l <- ls
      ensures Mild(l) && !l.Slot?
    {
      var i :| 0 <= i < |ls| && ls[i] == l;
      if i % 2 == 0 {
        assert parts[i / 2] in parts;
        PlainHasNoOpening(parts[i / 2]);
      }
    }
    TwinSelf(ls);
    NoNames(ls);
  }

  /** Both forms of a reference raise alike, are twins, and declare the own column only. */
  lemma RefTwin(c: string)
    requires PlainColumn(c) && c != ""
    ensures Ref(c, true).Some? == Ref(c, false).Some?
    ensures Ref(c, true).Some? ==>
              Twin(Ref(c, true).value, Ref(c, false).value) && SlotNames(Ref(c, false).value) == OwnColumn(c)
  {
    if '.' in c {
      PartsHaveNoBrace(c);
      if QuotePath(c).Some? {
        QuotePartsTwin(SplitOn(c, '.'));
      }
    } else {
      var iv := [Slot(INPUT_VIEW), Word("."), Slot(c)];
      assert iv[2..] == [Slot(c)] && [Slot(c)][1..] == [];
      assert Unqualified([Slot(c)], INPUT_VIEW) == [Slot(c)];
      assert IsIdentifier(INPUT_VIEW);
    }
  }

  lemma LiteralTwin(v: Value)
    requires PlainScalar(v)
    ensures Twin(Literal(v), Literal(v)) && SlotNames(Literal(v)) == []
  {
    TwinSelf(Literal(v));
    NoNames(Literal(v));
  }

  lemma ValueTwin(v: Value)
    requires PlainScalar(v)
    ensures ValueSql(v, true).Some? == ValueSql(v, false).Some?
    ensures ValueSql(v, true).Some? ==>
              Twin(ValueSql(v, true).value, ValueSql(v, false).value)
              && SlotNames(ValueSql(v, false).value) == ValueColumns(v)
  {
    if v.Object? && v.column != "" {
      RefTwin(v.column);
    } else {
      LiteralTwin(v);
    }
  }

  lemma {:induction false} ListTwin(vs: seq<Value>)
    requires forall v <- vs :: PlainScalar(v)
    ensures QuoteList(vs, true).Some? == QuoteList(vs, false).Some?
    ensures QuoteList(vs, true).Some? ==>
              Twin(QuoteList(vs, true).value, QuoteList(vs, false).value)
              && SlotNames(QuoteList(vs, false).value) == ListColumns(vs)
  {
    if vs == [] {
      TwinSelf([]);
    } else {
      ValueTwin(vs[0]);
      ListTwin(vs[1..]);
      if |vs| == 1 {
        assert vs[1..] == [] && ValueColumns(vs[0]) + [] == ValueColumns(vs[0]);
      } else if QuoteList(vs, true).Some? {
        TwinComma(ValueSql(vs[0], true).value, ValueSql(vs[0], false).value,
                  QuoteList(vs[1..], true).value, QuoteList(vs[1..], false).value);
        NamesComma(ValueSql(vs[0], false).value, QuoteList(vs[1..], false).value);
      }
    }
  }

  // ----- fragments -----

  /** The two forms of a fragment: twins, declaring `used` and then only names already in it. */
  predicate Declares(a: Lexemes, b: Lexemes, used: seq<string>) {
    Twin(a, b) && used <= SlotNames(b) && forall n <- SlotNames(b) :: n in used
  }

  lemma InfixDeclares(a: Lexemes, b: Lexemes, op: Lexeme, c: Lexemes, d: Lexemes, left: seq<string>, right: seq<string>)
    requires Twin(a, b) && Twin(c, d) && (op.Key? || op.Word?)
    requires SlotNames(b) == left && (SlotNames(d) == right || (right == [] && SlotNames(d) == left))
    ensures Declares(Infix(a, op, c), Infix(b, op, d), left + right)
  {
    TwinInfix(a, b, op, c, d);
    NamesInfix(b, op, d);
  }

  lemma ConstantTwin(ls: Lexemes)
    requires forall l <- ls :: !l.Slot? && !l.Quoted? && !InQuotes(l)
    ensures Twin(ls, ls) && SlotNames(ls) == []
  {
    TwinSelf(ls);
    NoNames(ls);
  }

  lemma StrTwin(s: string)
    requires NoOpening(s)
    ensures Twin([Str(s)], [Str(s)]) && SlotNames([Str(s)]) == []
  {
    TwinSelf([Str(s)]);
    NoNames([Str(s)]);
  }

  lemma CallTwin(f: string, a: Lexemes, b: Lexemes)
    requires Twin(a, b)
    ensures Twin(Call(f, a), Call(f, b)) && SlotNames(Call(f, b)) == SlotNames(b)
  {
    TwinCall(f, a, b);
    NamesCall(f, b);
  }

  lemma BetweenDeclares(a: Lexemes, b: Lexemes, lo: Lexemes, lo': Lexemes, hi: Lexemes, hi': Lexemes)
    requires Twin(a, b) && Twin(lo, lo') && Twin(hi, hi')
    ensures Declares(BetweenSql(a, lo, hi), BetweenSql(b, lo', hi'), SlotNames(b) + (SlotNames(lo') + SlotNames(hi')))
  {
    hide Twin;
    hide SlotNames;
    TwinInfix(a, b, Key(KBetween), lo, lo');
    NamesInfix(b, Key(KBetween), lo');
    TwinInfix(Infix(a, Key(KBetween), lo), Infix(b, Key(KBetween), lo'), Key(KAnd), hi, hi');
    NamesInfix(Infix(b, Key(KBetween), lo'), Key(KAnd), hi');
    ExactlyDeclares(BetweenSql(a, lo, hi), BetweenSql(b, lo', hi'), SlotNames(b), SlotNames(lo'), SlotNames(hi'));
  }

  lemma ExactlyDeclares(a: Lexemes, b: Lexemes, x: seq<string>, y: seq<string>, z: seq<string>)
    requires Twin(a, b) && SlotNames(b) == x + y + z
    ensures Declares(a, b, x + (y + z))
  {
    assert x + y + z == x + (y + z);
  }

  lemma InDeclares(a: Lexemes, b: Lexemes, list: Lexemes, list': Lexemes, used: seq<string>)
    requires Twin(a, b) && Twin(list, list') && SlotNames(list') == used
    ensures Declares(Infix(a, Key(KIn), Brackets(list)), Infix(b, Key(KIn), Brackets(list')), SlotNames(b) + used)
    ensures Declares(Infix(Sp(a, [Key(KNot)]), Key(KIn), Brackets(list)),
                     Infix(Sp(b, [Key(KNot)]), Key(KIn), Brackets(list')), SlotNames(b) + used)
  {
    hide Twin;
    hide SlotNames;
    TwinBrackets(list, list');
    NamesBrackets(list');
    ConstantTwin([Key(KNot)]);
    TwinSp(a, b, [Key(KNot)], [Key(KNot)]);
    NamesSp(b, [Key(KNot)]);
    assert SlotNames(b) + [] == SlotNames(b);
    InfixDeclares(a, b, Key(KIn), Brackets(list), Brackets(list'), SlotNames(b), used);
    InfixDeclares(Sp(a, [Key(KNot)]), Sp(b, [Key(KNot)]), Key(KIn), Brackets(list), Brackets(list'),
                  SlotNames(b), used);
  }

  lemma RangeDeclares(a: Lexemes, b: Lexemes, op: RangeOp, v: Value)
    requires Twin(a, b) && PlainValue(v) && RangeSql(a, op, v, true).Some? && RangeSql(b, op, v, false).Some?
    ensures Declares(RangeSql(a, op, v, true).value, RangeSql(b, op, v, false).value,
                     SlotNames(b) + OperandColumns(Ranges(op), v))
  {
    hide Twin;
    hide SlotNames;
    if op.Between? || op.LengthBetween? {
      ValueTwin(Bounds(v).0);
      ValueTwin(Bounds(v).1);
      CallTwin("length", a, b);
      var x, y := if op.Between? then a else Call("length", a), if op.Between? then b else Call("length", b);
      BetweenDeclares(x, y, ValueSql(Bounds(v).0, true).value, ValueSql(Bounds(v).0, false).value,
                      ValueSql(Bounds(v).1, true).value, ValueSql(Bounds(v).1, false).value);
    } else {
      ListTwin(ItemsOf(v));
      InDeclares(a, b, QuoteList(ItemsOf(v), true).value, QuoteList(ItemsOf(v), false).value, ListColumns(ItemsOf(v)));
    }
  }

  lemma IsNullDeclares(a: Lexemes, b: Lexemes)
    requires Twin(a, b)
    ensures Declares(IsNullSql(a), IsNullSql(b), SlotNames(b) + [])
    ensures Declares(IsNotNullSql(a), IsNotNullSql(b), SlotNames(b) + [])
  {
    ConstantTwin([Word("NULL")]);
    ConstantTwin([Key(KIs)]);
    InfixDeclares(a, b, Key(KIs), [Word("NULL")], [Word("NULL")], SlotNames(b), []);
    TwinSp(a, b, [Key(KIs)], [Key(KIs)]);
    NamesSp(b, [Key(KIs)]);
    assert SlotNames(b) + [] == SlotNames(b);
    InfixDeclares(Sp(a, [Key(KIs)]), Sp(b, [Key(KIs)]), Key(KNot), [Word("NULL")], [Word("NULL")], SlotNames(b), []);
  }

  lemma NullDeclares(a: Lexemes, b: Lexemes, op: NullOp, v: Value)
    requires Twin(a, b) && NullSql(a, op, v) != []
    ensures Declares(NullSql(a, op, v), NullSql(b, op, v), SlotNames(b) + [])
  {
    hide Twin;
    hide SlotNames;
    if op.IsNull? || op.IsNotNull? {
      IsNullDeclares(a, b);
    } else {
      var t := [Word(ValidityType(v))];
      ConstantTwin(t);
      TwinInfix(a, b, Word("AS"), t, t);
      NamesInfix(b, Word("AS"), t);
      assert SlotNames(b) + [] == SlotNames(b);
      CallTwin("TRY_CAST", Infix(a, Word("AS"), t), Infix(b, Word("AS"), t));
      IsNullDeclares(TryCast(a, v), TryCast(b, v));
    }
  }

  lemma CallDeclares(a: Lexemes, b: Lexemes, op: CallOp, v: Value)
    requires Twin(a, b) && PlainScalar(v)
    ensures Declares(CallSql(a, op, v), CallSql(b, op, v), SlotNames(b) + [])
  {
    hide Twin;
    hide SlotNames;
    LiteralTwin(v);
    TwinComma(a, b, Literal(v), Literal(v));
    NamesComma(b, Literal(v));
    var f := match op case StartsWith => "startswith" case EndsWith => "endswith" case _ => "contains";
    var x, y := Call(f, Comma(a, Literal(v))), Call(f, Comma(b, Literal(v)));
    CallTwin(f, Comma(a, Literal(v)), Comma(b, Literal(v)));
    ConstantTwin([Key(KNot)]);
    TwinSp([Key(KNot)], [Key(KNot)], x, y);
    NamesSp([Key(KNot)], y);
  }

  lemma RegexDeclares(a: Lexemes, b: Lexemes, op: RegexOp, v: Value)
    requires Twin(a, b) && PlainScalar(v)
    ensures Declares(RegexSql(a, op, v), RegexSql(b, op, v), SlotNames(b) + [])
  {
    hide Twin;
    hide SlotNames;
    LiteralTwin(v);
    PatternsHaveNoOpening();
    var right := match op
                 case OnlyDigits => [Str("^[0-9]+$")]
                 case IsUuid => [Str(UUID)]
                 case IsIpv4 => [Str(IPV4)]
                 case _ => Literal(v);
    if right != Literal(v) {
      StrTwin(right[0].value);
    }
    var x, y := Infix(a, Word("RLIKE"), right), Infix(b, Word("RLIKE"), right);
    InfixDeclares(a, b, Word("RLIKE"), right, right, SlotNames(b), []);
    TwinBrackets(x, y);
    NamesBrackets(y);
    ConstantTwin([Key(KNot)]);
    TwinSp([Key(KNot)], [Key(KNot)], Brackets(x), Brackets(y));
    NamesSp([Key(KNot)], Brackets(y));
    assert [] + SlotNames(y) == SlotNames(y);
  }

  /** `text` with one more plain piece and one more repeat count. */
  lemma NoOpeningCounted(text: string, plain: string, count: string, n: string)
    requires NoOpening(text) && EndsClean(text) && (forall c <- plain :: c != '{')
    requires count == "{" + n && n != "" && forall c <- n :: c != '{'
    ensures NoOpening(text + plain + count) && EndsClean(text + plain + count)
  {
    PlainHasNoOpening(plain);
    NoOpeningAppend(text, plain);
    PlainHasNoOpening(n);
    assert count[1..] == n && count[1] == n[0] && count[|count| - 1] == n[|n| - 1];
    assert n[0] in n;
    NoOpeningAppend(text + plain, count);
  }

  lemma UuidHasNoOpening()
    ensures NoOpening(UUID)
  {
    var a := "^" + HEX + "{8}-";
    var b := a + HEX + "{4}-";
    PlainHasNoOpening("^");
    NoOpeningCounted("^", HEX, "{8}-", "8}-");
    NoOpeningCounted(a, HEX, "{4}-", "4}-");
    NoOpeningCounted(b, HEX, "{4}-", "4}-");
    NoOpeningCounted(b + HEX + "{4}-", HEX, "{4}-", "4}-");
    NoOpeningCounted(b + HEX + "{4}-" + HEX + "{4}-", HEX, "{12}$", "12}$");
  }

  lemma Ipv4HasNoOpening()
    ensures NoOpening(IPV4)
  {
    var a := "^(" + OCTET;
    PlainHasNoOpening(a);
    NoOpeningCounted(a, "\\.)", "{3}", "3}");
    PlainHasNoOpening(OCTET + "$");
    NoOpeningAppend(a + "\\.)" + "{3}", OCTET + "$");
    assert a + "\\.)" + "{3}" + (OCTET + "$") == IPV4;
  }

  lemma PatternsHaveNoOpening()
    ensures NoOpening("^[0-9]+$") && NoOpening(UUID) && NoOpening(IPV4)
  {
    PlainHasNoOpening("^[0-9]+$");
    UuidHasNoOpening();
    Ipv4HasNoOpening();
  }

  lemma ZeroTwin()
    ensures Twin(ZERO, ZERO) && SlotNames(ZERO) == []
  {
    ConstantTwin(ZERO);
  }

  lemma LengthDeclares(a: Lexemes, b: Lexemes, op: LengthOp, v: Value)
    requires Twin(a, b) && PlainScalar(v)
    ensures Declares(LengthSql(a, op, v), LengthSql(b, op, v), SlotNames(b) + [])
  {
    hide Twin;
    hide SlotNames;
    var empty := op.IsEmpty? || op.IsNotEmpty?;
    CallTwin("trim", a, b);
    var x, y := if empty then Call("trim", a) else a, if empty then Call("trim", b) else b;
    CallTwin("length", x, y);
    ZeroTwin();
    LiteralTwin(v);
    var right := if empty then ZERO else Literal(v);
    var c := match op case HasLength => Eq case IsEmpty => Eq case IsShorterThan => Lt case _ => Gt;
    InfixDeclares(Call("length", x), Call("length", y), Key(KCmp(c)), right, right, SlotNames(b), []);
  }

  lemma ShapeDeclares(a: Lexemes, b: Lexemes, op: ShapeOp)
    requires Twin(a, b)
    ensures Declares(ShapeSql(a, op), ShapeSql(b, op), SlotNames(b) + [])
  {
    hide Twin;
    hide SlotNames;
    var f := match op
             case IsUppercase => "upper" case IsLowercase => "lower" case IsWholeNumber => "round" case _ => "TRIM";
    CallTwin(f, a, b);
    InfixDeclares(a, b, Key(KCmp(if op.HasOuterSpace? then Ne else Eq)), Call(f, a), Call(f, b), SlotNames(b), []);
  }

  lemma ConstantDeclares(a: Lexemes, b: Lexemes, op: ConstantOp, v: Value)
    requires Twin(a, b) && PlainScalar(v)
    ensures Declares(ConstantSql(a, op, v), ConstantSql(b, op, v), SlotNames(b) + [])
  {
    hide Twin;
    hide SlotNames;
    ZeroTwin();
    ConstantTwin([Word("TRUE")]);
    ConstantTwin([Word("FALSE")]);
    match op
    case IsTrue => InfixDeclares(a, b, Key(KCmp(Eq)), [Word("TRUE")], [Word("TRUE")], SlotNames(b), []);
    case IsFalse => InfixDeclares(a, b, Key(KCmp(Eq)), [Word("FALSE")], [Word("FALSE")], SlotNames(b), []);
    case IsPositive => InfixDeclares(a, b, Key(KCmp(Gt)), ZERO, ZERO, SlotNames(b), []);
    case IsNegative => InfixDeclares(a, b, Key(KCmp(Lt)), ZERO, ZERO, SlotNames(b), []);
    case IsNonNegative => InfixDeclares(a, b, Key(KCmp(Ge)), ZERO, ZERO, SlotNames(b), []);
    case IsMultipleOf =>
      LiteralTwin(v);
      TwinComma(a, b, Literal(v), Literal(v));
      NamesComma(b, Literal(v));
      CallTwin("mod", Comma(a, Literal(v)), Comma(b, Literal(v)));
      assert SlotNames(b) + [] == SlotNames(b);
      InfixDeclares(Call("mod", Comma(a, Literal(v))), Call("mod", Comma(b, Literal(v))), Key(KCmp(Eq)), ZERO, ZERO,
                    SlotNames(b), []);
  }

  lemma NowTwin()
    ensures Twin(NOW, NOW) && SlotNames(NOW) == []
    ensures Twin(Call("current_date", []), Call("current_date", [])) && SlotNames(Call("current_date", [])) == []
  {
    TwinSelf([]);
    CallTwin("current_timestamp", [], []);
    CallTwin("current_date", [], []);
  }

  /** The interval between its quotes, whatever the quotes inside. */
  lemma IntervalTwin(v: Value)
    requires NoOpening(IntervalText(v))
    ensures Twin([IntervalLiteral(v)], [IntervalLiteral(v)]) && SlotNames([IntervalLiteral(v)]) == []
  {
    var text := IntervalText(v);
    if '\'' in text {
      WrapNoOpening('\'', text);
      assert "'" + text + "'" == ['\''] + text + ['\''];
      TwinSelf([IntervalLiteral(v)]);
      NoNames([IntervalLiteral(v)]);
    } else {
      StrTwin(text);
    }
  }

  lemma EarliestTwin(v: Value)
    requires PlainScalar(v)
    ensures Twin(EarliestSql(v), EarliestSql(v)) && SlotNames(EarliestSql(v)) == []
  {
    hide Twin;
    hide SlotNames;
    NowTwin();
    if !v.Object? {
      PlainHasNoOpening("0 days");
      assert IntervalText(v) == "0 days";
    }
    IntervalTwin(v);
    ConstantTwin([Word("INTERVAL")]);
    var i := [IntervalLiteral(v)];
    TwinSp([Word("INTERVAL")], [Word("INTERVAL")], i, i);
    NamesSp([Word("INTERVAL")], i);
    TwinInfix(NOW, NOW, Word("-"), Sp([Word("INTERVAL")], i), Sp([Word("INTERVAL")], i));
    NamesInfix(NOW, Word("-"), Sp([Word("INTERVAL")], i));
  }

  lemma TimeDeclares(a: Lexemes, b: Lexemes, op: TimeOp, v: Value)
    requires Twin(a, b) && PlainScalar(v)
    ensures Declares(TimeSql(a, op, v), TimeSql(b, op, v), SlotNames(b) + [])
  {
    hide Twin;
    hide SlotNames;
    NowTwin();
    match op
    case IsInLast =>
      EarliestTwin(v);
      InfixDeclares(a, b, Key(KCmp(Ge)), EarliestSql(v), EarliestSql(v), SlotNames(b), []);
    case IsInFuture => InfixDeclares(a, b, Key(KCmp(Gt)), NOW, NOW, SlotNames(b), []);
    case IsInPast => InfixDeclares(a, b, Key(KCmp(Lt)), NOW, NOW, SlotNames(b), []);
    case IsToday =>
      var today := Call("current_date", []);
      CallTwin("to_date", a, b);
      InfixDeclares(Call("to_date", a), Call("to_date", b), Key(KCmp(Eq)), today, today, SlotNames(b), []);
  }

  lemma SentimentDeclares(a: Lexemes, b: Lexemes, positive: bool)
    requires Twin(a, b)
    ensures Declares(SentimentSql(a, positive), SentimentSql(b, positive), SlotNames(b) + [])
  {
    hide Twin;
    hide SlotNames;
    var mood := if positive then "positive" else "negative";
    PlainHasNoOpening("positive");
    PlainHasNoOpening("negative");
    StrTwin(mood);
    CallTwin("ai_analyze_sentiment", a, b);
    InfixDeclares(Call("ai_analyze_sentiment", a), Call("ai_analyze_sentiment", b), Key(KCmp(Eq)),
                  [Str(mood)], [Str(mood)],
                  SlotNames(b), []);
  }

  lemma DigitsTwin(a: Lexemes, b: Lexemes)
    requires Twin(a, b)
    ensures Twin(Digits(a), Digits(b)) && SlotNames(Digits(b)) == SlotNames(b)
  {
    hide Twin;
    hide SlotNames;
    var any, none := [Str("[^0-9]")], [Str("")];
    PlainHasNoOpening("[^0-9]");
    StrTwin("[^0-9]");
    StrTwin("");
    TwinComma(a, b, any, any);
    NamesComma(b, any);
    TwinComma(Comma(a, any), Comma(b, any), none, none);
    NamesComma(Comma(b, any), none);
    CallTwin("regexp_replace", Comma(Comma(a, any), none), Comma(Comma(b, any), none));
  }

  lemma LuhnDeclares(a: Lexemes, b: Lexemes)
    requires Twin(a, b)
    ensures Declares(LuhnSql(a), LuhnSql(b), SlotNames(b) + [])
  {
    hide Twin;
    hide SlotNames;
    ZeroTwin();
    DigitsTwin(a, b);
    CallTwin("length", Digits(a), Digits(b));
    CallTwin("luhn_check", Digits(a), Digits(b));
    var x, y := Call("length", Digits(a)), Call("length", Digits(b));
    TwinInfix(x, y, Key(KCmp(Gt)), ZERO, ZERO);
    NamesInfix(y, Key(KCmp(Gt)), ZERO);
    assert SlotNames(b) + [] == SlotNames(b);
    InfixDeclares(Infix(x, Key(KCmp(Gt)), ZERO), Infix(y, Key(KCmp(Gt)), ZERO), Key(KAnd),
                  Call("luhn_check", Digits(a)), Call("luhn_check", Digits(b)), SlotNames(b), []);
  }

  /** The rows with no SQL form. */
  predicate HasNoForm(op: Operator, v: Value) {
    op.Unknown? || (op.Nulls? && (op.nulls.IsAValid? || op.nulls.IsNotAValid?) && ValidityType(v) == "")
  }

  lemma NullNotEmpty(left: Lexemes, op: NullOp, v: Value)
    ensures NullSql(left, op, v) == [] <==> HasNoForm(Nulls(op), v)
  {
    SpNotEmpty(Sp(left, [Key(KIs)]), [Word("NULL")]);
    SpNotEmpty(Sp(Sp(left, [Key(KIs)]), [Key(KNot)]), [Word("NULL")]);
  }

  lemma FormIff(left: Lexemes, op: Operator, v: Value, q: bool)
    requires RowSql(left, op, v, q).Some?
    ensures RowSql(left, op, v, q).value == [] <==> HasNoForm(op, v)
  {
    hide Twin, SlotNames;
    match op
    case Nulls(o) => NullNotEmpty(left, o, v);
    case _ =>
  }

  /** Qualified or not, a row raises alike. */
  lemma RowRaisesAlike(a: Lexemes, b: Lexemes, op: Operator, v: Value)
    requires PlainValue(v)
    ensures RowSql(a, op, v, true).Some? == RowSql(b, op, v, false).Some?
  {
    hide Twin, SlotNames;
    match op
    case Compares(_) => ValueTwin(v);
    case Ranges(o) =>
      if o.In? || o.NotIn? {
        ListTwin(ItemsOf(v));
      } else {
        ValueTwin(Bounds(v).0);
        ValueTwin(Bounds(v).1);
      }
    case _ =>
  }

  /** The two forms of every row operator. */
  lemma RowDeclares(a: Lexemes, b: Lexemes, op: Operator, v: Value)
    requires Twin(a, b) && PlainValue(v) && ValueOk(v)
    requires RowSql(a, op, v, true).Some? && RowSql(a, op, v, true).value != []
    requires RowSql(b, op, v, false).Some?
    ensures Declares(RowSql(a, op, v, true).value, RowSql(b, op, v, false).value, SlotNames(b) + OperandColumns(op, v))
  {
    hide Twin, SlotNames, Declares;
    match op
    case Compares(o) =>
      ValueTwin(v);
      InfixDeclares(a, b, Key(KCmp(ComparisonOf(o))), ValueSql(v, true).value, ValueSql(v, false).value,
                    SlotNames(b), ValueColumns(v));
    case Ranges(o) => RangeDeclares(a, b, o, v);
    case Nulls(o) => NullDeclares(a, b, o, v);
    case Calls(o) => CallDeclares(a, b, o, v);
    case Regexes(o) => RegexDeclares(a, b, o, v);
    case Lengths(o) => LengthDeclares(a, b, o, v);
    case Shapes(o) => ShapeDeclares(a, b, o);
    case Constants(o) => ConstantDeclares(a, b, o, v);
    case Times(o) => TimeDeclares(a, b, o, v);
    case Sentiment(positive) => SentimentDeclares(a, b, positive);
    case PassesLuhn => LuhnDeclares(a, b);
  }

  // ----- aggregated rows -----

  /** One more word after both forms. */
  lemma WordTwin(a: Lexemes, b: Lexemes, w: string)
    requires Twin(a, b)
    ensures Twin(Sp(a, [Word(w)]), Sp(b, [Word(w)])) && SlotNames(Sp(b, [Word(w)])) == SlotNames(b)
  {
    ConstantTwin([Word(w)]);
    TwinSp(a, b, [Word(w)], [Word(w)]);
    NamesSp(b, [Word(w)]);
  }

  /** A constant right operand. */
  lemma OperandTwin(a: Lexemes, b: Lexemes, op: Lexeme, c: Lexemes)
    requires Twin(a, b) && Twin(c, c) && SlotNames(c) == [] && (op.Key? || op.Word?)
    ensures Twin(Infix(a, op, c), Infix(b, op, c)) && SlotNames(Infix(b, op, c)) == SlotNames(b)
  {
    TwinInfix(a, b, op, c, c);
    NamesInfix(b, op, c);
  }

  /** `CASE WHEN c IS NULL` */
  lemma WhenNullTwin(head: Lexemes, a: Lexemes, b: Lexemes)
    requires Twin(a, b) && Twin(head, head) && SlotNames(head) == []
    ensures Twin(IsNullSql(Sp(head, a)), IsNullSql(Sp(head, b))) && SlotNames(IsNullSql(Sp(head, b))) == SlotNames(b)
  {
    hide Twin;
    hide SlotNames;
    TwinSp(head, head, a, b);
    NamesSp(head, b);
    ConstantTwin([Word("NULL")]);
    OperandTwin(Sp(head, a), Sp(head, b), Key(KIs), [Word("NULL")]);
  }

  lemma NullFlagTwin(a: Lexemes, b: Lexemes)
    requires Twin(a, b)
    ensures Twin(NullFlag(a), NullFlag(b)) && SlotNames(NullFlag(b)) == SlotNames(b)
  {
    hide Twin;
    hide SlotNames;
    var head := Sp([Word("CASE")], [Word("WHEN")]);
    var tail := Sp(Sp([Word("ELSE")], [Word("0")]), [Word("END")]);
    ConstantTwin(head);
    ConstantTwin(tail);
    WhenNullTwin(head, a, b);
    var x, y := IsNullSql(Sp(head, a)), IsNullSql(Sp(head, b));
    WordTwin(x, y, "THEN");
    WordTwin(Sp(x, [Word("THEN")]), Sp(y, [Word("THEN")]), "1");
    FlagEnd(Sp(Sp(x, [Word("THEN")]), [Word("1")]), Sp(Sp(y, [Word("THEN")]), [Word("1")]), tail);
  }

  lemma FlagEnd(x: Lexemes, y: Lexemes, tail: Lexemes)
    requires Twin(x, y) && Twin(tail, tail) && SlotNames(tail) == []
    ensures Twin(Sp(x, tail), Sp(y, tail)) && SlotNames(Sp(y, tail)) == SlotNames(y)
  {
    TwinSp(x, y, tail, tail);
    NamesSp(y, tail);
  }

  lemma RatioTwin(x: Lexemes, y: Lexemes, one: Lexemes, count: Lexemes)
    requires Twin(x, y) && Twin(one, one) && Twin(count, count) && SlotNames(one) == [] && SlotNames(count) == []
    ensures var a, b := Brackets(Infix(Infix(x, Word("*"), one), Word("/"), count)),
                        Brackets(Infix(Infix(y, Word("*"), one), Word("/"), count));
            Twin(a, b) && SlotNames(b) == SlotNames(y)
  {
    hide Twin;
    hide SlotNames;
    OperandTwin(x, y, Word("*"), one);
    OperandTwin(Infix(x, Word("*"), one), Infix(y, Word("*"), one), Word("/"), count);
    TwinBrackets(Infix(Infix(x, Word("*"), one), Word("/"), count), Infix(Infix(y, Word("*"), one), Word("/"), count));
    NamesBrackets(Infix(Infix(y, Word("*"), one), Word("/"), count));
  }

  lemma CountTwin()
    ensures var count := Call("NULLIF", Comma(Call("COUNT", [Word("*")]), [Word("0")]));
            Twin(count, count) && SlotNames(count) == []
  {
    ConstantTwin([Word("*")]);
    ZeroTwin();
    CallTwin("COUNT", [Word("*")], [Word("*")]);
    var stars := Call("COUNT", [Word("*")]);
    TwinComma(stars, stars, ZERO, ZERO);
    NamesComma(stars, ZERO);
    CallTwin("NULLIF", Comma(stars, ZERO), Comma(stars, ZERO));
  }

  lemma SumOfFlagsTwin(a: Lexemes, b: Lexemes)
    requires Twin(a, b)
    ensures Twin(Call("SUM", NullFlag(a)), Call("SUM", NullFlag(b)))
    ensures SlotNames(Call("SUM", NullFlag(b))) == SlotNames(b)
  {
    NullFlagTwin(a, b);
    CallTwin("SUM", NullFlag(a), NullFlag(b));
  }

  lemma ShareTwin(x: Lexemes, y: Lexemes)
    requires Twin(x, y)
    ensures Twin(Share(x), Share(y)) && SlotNames(Share(y)) == SlotNames(y)
  {
    hide Twin;
    hide SlotNames;
    CountTwin();
    ConstantTwin([Word("1.0")]);
    RatioTwin(x, y, [Word("1.0")], Call("NULLIF", Comma(Call("COUNT", [Word("*")]), [Word("0")])));
  }

  lemma AggSqlTwin(g: Aggregate, a: Lexemes, b: Lexemes, param: Option<string>)
    requires Twin(a, b) && !g.UnknownAggregate?
    ensures Twin(AggSql(g, a, param), AggSql(g, b, param))
    ensures SlotNames(AggSql(g, b, param)) == SlotNames(b)
  {
    hide Twin;
    hide SlotNames;
    var p := [Word(GetOr(param, "0.5"))];
    if g.CountDistinct? {
      ConstantTwin([Word("DISTINCT")]);
      TwinSp([Word("DISTINCT")], [Word("DISTINCT")], a, b);
      NamesSp([Word("DISTINCT")], b);
      CallTwin("COUNT", Sp([Word("DISTINCT")], a), Sp([Word("DISTINCT")], b));
    } else if g.NullRate? {
      SumOfFlagsTwin(a, b);
      ShareTwin(Call("SUM", NullFlag(a)), Call("SUM", NullFlag(b)));
    } else if g.Percentile? || g.PercentileApprox? {
      ConstantTwin(p);
      TwinComma(a, b, p, p);
      NamesComma(b, p);
      CallTwin(if g.Percentile? then "PERCENTILE" else "PERCENTILE_APPROX", Comma(a, p), Comma(b, p));
    } else {
      CallTwin(AggName(g), a, b);
    }
  }

  lemma AggTwin(spec: AggSpec)
    requires PlainColumn(spec.column)
    ensures AggExpr(spec, true).Some? == AggExpr(spec, false).Some?
    ensures AggExpr(spec, true).Some? ==>
              && Twin(AggExpr(spec, true).value, AggExpr(spec, false).value)
              && SlotNames(AggExpr(spec, false).value)
                 == if spec.aggregate.UnknownAggregate? then [] else OwnColumn(spec.column)
  {
    if spec.aggregate.UnknownAggregate? || spec.column == "" {
      TwinSelf([]);
    } else {
      RefTwin(spec.column);
      if AggExpr(spec, true).Some? {
        AggSqlTwin(spec.aggregate, Ref(spec.column, true).value, Ref(spec.column, false).value, spec.param);
      }
    }
  }

  lemma AggEmptyAlike(spec: AggSpec, q: bool)
    requires AggExpr(spec, q).Some?
    ensures AggExpr(spec, q).value == [] <==> spec.aggregate.UnknownAggregate? || spec.column == ""
  {
    if !spec.aggregate.UnknownAggregate? && spec.column != "" && spec.aggregate.NullRate? {
      assert AggExpr(spec, q).value[0] == Punct('(');
    }
  }

  // ----- rows and stacks -----

  /** What is known of the two forms of one row. */
  predicate RowTwins(row: Row) {
    && CompileRow(row, true).Some? == CompileRow(row, false).Some?
    && Compiles(row, true) == Compiles(row, false)
    && (Compiles(row, true) ==>
          Declares(CompileRow(row, true).value, CompileRow(row, false).value, RowColumns(row)))
  }

  lemma SingleTwins(row: Row)
    requires row.Single? && PlainRow(row) && RowOk(row)
    ensures RowTwins(row)
  {
    if row.column != "" {
      RefTwin(row.column);
      if Ref(row.column, true).Some? {
        var a, b := Ref(row.column, true).value, Ref(row.column, false).value;
        RowRaisesAlike(a, b, row.operator, row.value);
        if RowSql(a, row.operator, row.value, true).Some? {
          FormIff(a, row.operator, row.value, true);
          FormIff(b, row.operator, row.value, false);
          if !HasNoForm(row.operator, row.value) {
            RowDeclares(a, b, row.operator, row.value);
          }
        }
      }
    }
  }

  /** The left-hand forms are known: two aggregates compared. */
  lemma ComparedTwins(row: Row, a: Lexemes, b: Lexemes)
    requires ComparesAggregates(row) && PlainRow(row) && Twin(a, b) && a != [] && b != []
    requires AggExpr(row.left, true) == Some(a) && AggExpr(row.left, false) == Some(b)
    requires SlotNames(b) == OwnColumn(row.left.column)
    ensures RowTwins(row)
  {
    hide Twin;
    hide SlotNames;
    var spec, op := row.value.aggregate.value, Key(KCmp(row.operator.compare.c));
    AggTwin(spec);
    if AggExpr(spec, true).Some? {
      var c, d := AggExpr(spec, true).value, AggExpr(spec, false).value;
      InfixDeclares(a, b, op, c, d, SlotNames(b), SlotNames(d));
      SpNotEmpty(Sp(a, [op]), c);
      SpNotEmpty(Sp(b, [op]), d);
    }
  }

  lemma NullCheckNotEmpty(a: Lexemes)
    ensures IsNullSql(a) != [] && IsNotNullSql(a) != []
  {
    SpNotEmpty(Sp(a, [Key(KIs)]), [Word("NULL")]);
    SpNotEmpty(Sp(Sp(a, [Key(KIs)]), [Key(KNot)]), [Word("NULL")]);
  }

  lemma KnownForms(row: Row, x: Lexemes, y: Lexemes)
    requires CompileRow(row, true) == Some(x) && CompileRow(row, false) == Some(y) && x != [] && y != []
    requires Declares(x, y, RowColumns(row))
    ensures RowTwins(row)
  {
  }

  lemma NoForms(row: Row)
    requires CompileRow(row, true) == CompileRow(row, false) == Some([])
    ensures RowTwins(row)
  {
  }

  /** The text of an aggregated row whose left-hand side is known. */
  lemma AggregateForm(row: Row, left: Lexemes, q: bool)
    requires row.Aggregated? && AggExpr(row.left, q) == Some(left) && left != [] && !ComparesAggregates(row)
    ensures CompileRow(row, q) ==
            match row.operator
            case Compares(Cmp(c)) => Some(Infix(left, Key(KCmp(c)), Literal(row.value)))
            case Nulls(IsNull) => Some(IsNullSql(left))
            case Nulls(IsNotNull) => Some(IsNotNullSql(left))
            case Ranges(Between) => Some(BetweenSql(left, Literal(Bounds(row.value).0), Literal(Bounds(row.value).1)))
            case _ => Some([])
  {
    hide AggExpr, Infix, IsNullSql, IsNotNullSql, BetweenSql, Literal, Bounds;
  }

  lemma OneColumn(row: Row)
    requires row.Aggregated? && !ComparesAggregates(row)
    ensures RowColumns(row) == OwnColumn(row.left.column) + []
  {
    hide OwnColumn;
  }

  /** Aggregated rows that compare no second aggregate; only the left-hand side holds a column. */
  lemma OneAggregateTwins(row: Row, a: Lexemes, b: Lexemes)
    requires row.Aggregated? && !ComparesAggregates(row) && PlainRow(row)
    requires Twin(a, b) && a != [] && b != []
    requires AggExpr(row.left, true) == Some(a) && AggExpr(row.left, false) == Some(b)
    requires SlotNames(b) == OwnColumn(row.left.column)
    ensures RowTwins(row)
  {
    hide Twin, SlotNames, Declares, IsNullSql, IsNotNullSql, BetweenSql, Infix, AggExpr, OwnColumn, Literal, Bounds,
         CompileRow, Compiles, RowTwins, RowColumns, PlainScalar;
    AggregateForm(row, a, true);
    AggregateForm(row, b, false);
    OneColumn(row);
    match row.operator
    case Compares(Cmp(c)) => LiteralForms(row, a, b, c);
    case Nulls(IsNull) =>
      IsNullDeclares(a, b);
      NullCheckNotEmpty(a);
      NullCheckNotEmpty(b);
      KnownForms(row, IsNullSql(a), IsNullSql(b));
    case Nulls(IsNotNull) =>
      IsNullDeclares(a, b);
      NullCheckNotEmpty(a);
      NullCheckNotEmpty(b);
      KnownForms(row, IsNotNullSql(a), IsNotNullSql(b));
    case Ranges(Between) => RangeForms(row, a, b, Literal(Bounds(row.value).0), Literal(Bounds(row.value).1));
    case _ => NoForms(row);
  }

  lemma LiteralForms(row: Row, a: Lexemes, b: Lexemes, c: RowComparison)
    requires row.Aggregated? && PlainRow(row) && Twin(a, b) && RowColumns(row) == SlotNames(b) + []
    requires CompileRow(row, true) == Some(Infix(a, Key(KCmp(c)), Literal(row.value)))
    requires CompileRow(row, false) == Some(Infix(b, Key(KCmp(c)), Literal(row.value)))
    ensures RowTwins(row)
  {
    var op, v := Key(KCmp(c)), Literal(row.value);
    LiteralTwin(row.value);
    hide Twin, SlotNames, Declares, CompileRow, RowTwins, RowColumns, Literal;
    InfixDeclares(a, b, op, v, v, SlotNames(b), []);
    SpNotEmpty(Sp(a, [op]), v);
    SpNotEmpty(Sp(b, [op]), v);
    KnownForms(row, Infix(a, op, v), Infix(b, op, v));
  }

  lemma RangeForms(row: Row, a: Lexemes, b: Lexemes, lo: Lexemes, hi: Lexemes)
    requires row.Aggregated? && PlainRow(row) && Twin(a, b) && RowColumns(row) == SlotNames(b) + []
    requires lo == Literal(Bounds(row.value).0) && hi == Literal(Bounds(row.value).1)
    requires CompileRow(row, true) == Some(BetweenSql(a, lo, hi))
    requires CompileRow(row, false) == Some(BetweenSql(b, lo, hi))
    ensures RowTwins(row)
  {
    LiteralTwin(Bounds(row.value).0);
    LiteralTwin(Bounds(row.value).1);
    hide Twin, SlotNames, Declares, CompileRow, RowTwins, RowColumns, Literal, Bounds;
    BetweenDeclares(a, b, lo, lo, hi, hi);
    SpNotEmpty(Sp(Infix(a, Key(KBetween), lo), [Key(KAnd)]), hi);
    SpNotEmpty(Sp(Infix(b, Key(KBetween), lo), [Key(KAnd)]), hi);
    assert SlotNames(b) + ([] + []) == SlotNames(b) + [];
    KnownForms(row, BetweenSql(a, lo, hi), BetweenSql(b, lo, hi));
  }

  lemma AggregatedTwins(row: Row)
    requires row.Aggregated? && PlainRow(row) && RowOk(row)
    ensures RowTwins(row)
  {
    var spec := row.left;
    AggTwin(spec);
    if AggExpr(spec, true).Some? {
      AggEmptyAlike(spec, true);
      AggEmptyAlike(spec, false);
      if AggExpr(spec, true).value != [] {
        if ComparesAggregates(row) {
          ComparedTwins(row, AggExpr(spec, true).value, AggExpr(spec, false).value);
        } else {
          OneAggregateTwins(row, AggExpr(spec, true).value, AggExpr(spec, false).value);
        }
      }
    }
  }

  lemma EveryRowTwins(row: Row)
    requires PlainRow(row) && RowOk(row)
    ensures RowTwins(row)
  {
    match row
    case NotAnObject =>
    case Single(_, _, _, _) => SingleTwins(row);
    case Aggregated(_, _, _, _) => AggregatedTwins(row);
  }

  // ----- collecting from a fragment -----

  lemma {:induction false} CollectKnown(seen: seq<string>, names: seq<string>)
    requires forall n <- names :: n in seen || Reserved(n)
    ensures Collect(seen, names) == seen
    decreases |names|
  {
    if names != [] {
      assert names[0] in names && AddName(seen, names[0]) == seen;
      CollectKnown(seen, names[1..]);
    }
  }

  lemma {:induction false} CollectHolds(seen: seq<string>, names: seq<string>)
    ensures seen <= Collect(seen, names)
    ensures forall n <- names :: n in Collect(seen, names) || Reserved(n)
    decreases |names|
  {
    if names != [] {
      var next := AddName(seen, names[0]);
      CollectHolds(next, names[1..]);
      assert names[0] in next || Reserved(names[0]);
      assert forall n <- next :: n in Collect(next, names[1..]);
      assert forall n <- names :: n == names[0] || n in names[1..];
    }
  }

  lemma CollectDeclared(seen: seq<string>, a: Lexemes, b: Lexemes, used: seq<string>)
    requires Declares(a, b, used)
    ensures Collect(seen, SlotNames(b)) == Collect(seen, used)
  {
    var extra := SlotNames(b)[|used|..];
    assert SlotNames(b) == used + extra;
    CollectAppend(seen, used, extra);
    CollectHolds(seen, used);
    CollectKnown(Collect(seen, used), extra);
  }

  /** Dropping the qualifiers drops only reserved names. */
  lemma {:induction false} CollectUnqualified(seen: seq<string>, ls: Lexemes)
    ensures Collect(seen, SlotNames(ls)) == Collect(seen, SlotNames(Unqualified(ls, INPUT_VIEW)))
    decreases |ls|
  {
    if ls != [] {
      if |ls| > 1 && ls[0] == Slot(INPUT_VIEW) && ls[1] == Word(".") {
        assert SlotNames(ls[1..]) == SlotNames(ls[2..]) by {
          assert ls[1..][1..] == ls[2..];
          assert [] + SlotNames(ls[2..]) == SlotNames(ls[2..]);
        }
        assert SlotNames(ls) == [INPUT_VIEW] + SlotNames(ls[2..]);
        CollectUnqualified(seen, ls[2..]);
        assert ([INPUT_VIEW] + SlotNames(ls[2..]))[1..] == SlotNames(ls[2..]);
      } else {
        var rest := Unqualified(ls[1..], INPUT_VIEW);
        var head := if ls[0].Slot? then [ls[0].name] else [];
        assert ([ls[0]] + rest)[1..] == rest;
        CollectAppend(seen, head, SlotNames(ls[1..]));
        CollectAppend(seen, head, SlotNames(rest));
        CollectUnqualified(Collect(seen, head), ls[1..]);
      }
    }
  }

  /** Both forms of the rest of a stack, and the names they declare. */
  predicate StackTwins(rows: seq<Row>, i: nat)
    requires i <= |rows|
  {
    && StackFrom(rows, i, true).Some? == StackFrom(rows, i, false).Some?
    && (StackFrom(rows, i, true).Some? ==>
          && Twin(StackFrom(rows, i, true).value, StackFrom(rows, i, false).value)
          && (StackFrom(rows, i, true).value == [] <==> StackFrom(rows, i, false).value == []))
  }

  lemma PartTwin(row: Row, i: nat, a: Lexemes, b: Lexemes)
    requires Twin(a, b)
    ensures Twin(Part(row, i, a), Part(row, i, b)) && SlotNames(Part(row, i, b)) == SlotNames(b)
    ensures a != [] && b != [] ==> Part(row, i, a) != [] && Part(row, i, b) != []
  {
    hide Twin;
    hide SlotNames;
    var c := [AsWord(Combinator(row))];
    ConstantTwin(c);
    TwinSp(c, c, a, b);
    NamesSp(c, b);
    SpNotEmpty(c, a);
    SpNotEmpty(c, b);
  }

  lemma {:induction false} StackFromTwins(rows: seq<Row>, i: nat)
    requires i <= |rows| && (forall r <- rows :: PlainRow(r) && RowOk(r))
    ensures StackTwins(rows, i)
    decreases |rows| - i
  {
    if i == |rows| {
      TwinSelf([]);
    } else {
      EveryRowTwins(rows[i]);
      StackFromTwins(rows, i + 1);
      if Compiles(rows[i], true) && StackFrom(rows, i + 1, true).Some? {
        var a, b := CompileRow(rows[i], true).value, CompileRow(rows[i], false).value;
        PartTwin(rows[i], i, a, b);
        TwinSp(Part(rows[i], i, a), Part(rows[i], i, b),
               StackFrom(rows, i + 1, true).value, StackFrom(rows, i + 1, false).value);
        SpNotEmpty(Part(rows[i], i, a), StackFrom(rows, i + 1, true).value);
        SpNotEmpty(Part(rows[i], i, b), StackFrom(rows, i + 1, false).value);
      }
    }
  }

  lemma {:induction false} StackFromNames(rows: seq<Row>, i: nat, seen: seq<string>)
    requires i <= |rows| && (forall r <- rows :: PlainRow(r) && RowOk(r)) && StackFrom(rows, i, false).Some?
    ensures Collect(seen, SlotNames(StackFrom(rows, i, false).value)) == Collect(seen, UsedColumns(rows[i..], false))
    decreases |rows| - i
  {
    if i < |rows| {
      EveryRowTwins(rows[i]);
      assert rows[i..][1..] == rows[i + 1..];
      var rest := StackFrom(rows, i + 1, false).value;
      if Compiles(rows[i], false) {
        var a, b := CompileRow(rows[i], true).value, CompileRow(rows[i], false).value;
        PartTwin(rows[i], i, a, b);
        CollectDeclared(seen, a, b, RowColumns(rows[i]));
        NamesSp(Part(rows[i], i, b), rest);
        CollectAppend(seen, SlotNames(b), SlotNames(rest));
        CollectAppend(seen, RowColumns(rows[i]), UsedColumns(rows[i + 1..], false));
        StackFromNames(rows, i + 1, Collect(seen, SlotNames(b)));
      } else {
        StackFromNames(rows, i + 1, seen);
        assert UsedColumns(rows[i..], false) == UsedColumns(rows[i + 1..], false);
      }
    }
  }

  // ----- the two results about compiled predicates -----

  lemma TwinScannable(a: Lexemes, b: Lexemes)
    requires Twin(a, b)
    ensures WellSpaced(a) ==> AllScannable(a)
    ensures WellSpaced(b) ==> AllScannable(b)
  {
    hide Lexable, NoOpening, IsIdentifier;
  }

  lemma StackScannable(rows: seq<Row>, q: bool)
    requires (forall r <- rows :: PlainRow(r)) && StackOk(rows) && Stack(rows, q).Some?
    ensures AllScannable(Stack(rows, q).value)
  {
    hide PlainRow, RowOk, Twin, WellSpaced, AllScannable, StackFrom;
    StackFromTwins(rows, 0);
    StackSpaced(rows, q);
    TwinScannable(Stack(rows, true).value, Stack(rows, false).value);
  }

  /** Deleting every `{{input_view}}.` from the qualified predicate text gives the
      unqualified predicate text, and the two raise alike. */
  lemma QualifierComesOff(rows: seq<Row>)
    requires (forall r <- rows :: PlainRow(r)) && StackOk(rows)
    ensures Stack(rows, true).Some? == Stack(rows, false).Some?
    ensures Stack(rows, true).Some? ==>
              Delete(Render(Stack(rows, true).value), Qualifier(INPUT_VIEW)) == Render(Stack(rows, false).value)
  {
    StackFromTwins(rows, 0);
    if Stack(rows, true).Some? {
      StackScannable(rows, true);
      assert IsIdentifier(INPUT_VIEW);
      DeleteRendered(Stack(rows, true).value, INPUT_VIEW);
    }
  }

  /** The slots declared by the predicate text, qualified or not, are exactly the own-table
      columns of the rows that compile: no repeats, in order of first appearance. */
  lemma DeclaredSlots(rows: seq<Row>, q: bool)
    requires (forall r <- rows :: PlainRow(r)) && StackOk(rows) && Stack(rows, q).Some?
    ensures Collect([], TokenNames(Render(Stack(rows, q).value))) == Collect([], UsedColumns(rows, false))
  {
    StackFromTwins(rows, 0);
    StackScannable(rows, q);
    ScanFindsSlots(Stack(rows, q).value);
    CollectUnqualified([], Stack(rows, true).value);
    StackFromNames(rows, 0, []);
    assert rows[0..] == rows;
  }
}
