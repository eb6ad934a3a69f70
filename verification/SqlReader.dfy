/**
 An independent reader of boolean SQL text: OR binds weakest, then AND, then NOT,
 then comparisons, and BETWEEN owns the next AND. Meanings are three-valued.
 */
module SqlReader {
  import opened Text
  import opened SqlText

  type Tokens = seq<Lexeme>

  // ----- three-valued logic -----

  datatype Truth = True | False | Unknown

  function Not3(a: Truth): Truth {
    match a
    case True => False
    case False => True
    case Unknown => Unknown
  }

  function And3(a: Truth, b: Truth): Truth {
    if a == False || b == False then False
    else if a == Unknown || b == Unknown then Unknown
    else True
  }

  function Or3(a: Truth, b: Truth): Truth {
    Not3(And3(Not3(a), Not3(b)))
  }

  function Of(b: bool): Truth {
    if b then True else False
  }

  // Readings may fail: a part with no text in it has no meaning.
  function NotR(a: Option<Truth>): Option<Truth> {
    var x :- a; Some(Not3(x))
  }

  function AndR(a: Option<Truth>, b: Option<Truth>): Option<Truth> {
    var x :- a; var y :- b; Some(And3(x, y))
  }

  function OrR(a: Option<Truth>, b: Option<Truth>): Option<Truth> {
    var x :- a; var y :- b; Some(Or3(x, y))
  }

  /** What one row (or group) gives each operand and each boolean call. A value is a
      point in its type's total order; None is NULL. */
  datatype Env = Env(value: Tokens -> Option<real>, truth: Tokens -> Truth)

  // ----- scanning the top level -----

  function DropSpaces(ls: seq<Lexeme>): Tokens {
    if ls == [] then []
    else if ls[0].Space? then DropSpaces(ls[1..])
    else [ls[0]] + DropSpaces(ls[1..])
  }

  /** Bracket depth after one more token. */
  function Depth(d: int, t: Lexeme): int {
    if t == Punct('(') then d + 1 else if t == Punct(')') then d - 1 else d
  }

  /** Bracket depth, and whether a BETWEEN is waiting for its AND. */
  datatype Scan = Scan(depth: int, pending: bool)

  const Start := Scan(0, false)

  function Next(st: Scan, t: Lexeme): Scan {
    Scan(Depth(st.depth, t),
         if st.depth == 0 && t == Key(KBetween) then true
         else if st.depth == 0 && (t == Key(KAnd) || t == Key(KOr)) then false
         else st.pending)
  }

  function Run(ts: Tokens, st: Scan): Scan {
    if ts == [] then st else Run(ts[1..], Next(st, ts[0]))
  }

  datatype Level = OrLevel | AndLevel

  predicate Cuts(level: Level, st: Scan, t: Lexeme) {
    st.depth == 0 && match level
                     case OrLevel => t == Key(KOr)
                     case AndLevel => t == Key(KAnd) && !st.pending
  }

  /** Position of the first connective of this level; the length when there is none. */
  function FirstCut(level: Level, ts: Tokens, st: Scan): (n: nat)
    ensures n <= |ts|
  {
    if ts == [] || Cuts(level, st, ts[0]) then 0
    else 1 + FirstCut(level, ts[1..], Next(st, ts[0]))
  }

  /** Position of the bracket that closes `d` open ones; the length when there is none. */
  function ClosingIndex(ts: Tokens, d: int): (n: nat)
    ensures n <= |ts|
  {
    if ts == [] || Depth(d, ts[0]) <= 0 then 0 else 1 + ClosingIndex(ts[1..], Depth(d, ts[0]))
  }

  predicate IsGroup(ts: Tokens) {
    |ts| >= 2 && ts[0] == Punct('(') && ClosingIndex(ts[1..], 1) == |ts| - 2
  }

  // ----- the reader -----

  function ReadOr(ts: Tokens, env: Env): Option<Truth>
    decreases |ts|, 2
  {
    var i := FirstCut(OrLevel, ts, Start);
    if i < |ts| then OrR(ReadAnd(ts[..i], env), ReadOr(ts[i + 1..], env)) else ReadAnd(ts, env)
  }

  function ReadAnd(ts: Tokens, env: Env): Option<Truth>
    decreases |ts|, 1
  {
    var i := FirstCut(AndLevel, ts, Start);
    if i < |ts| then AndR(ReadNot(ts[..i], env), ReadAnd(ts[i + 1..], env)) else ReadNot(ts, env)
  }

  function ReadNot(ts: Tokens, env: Env): Option<Truth>
    decreases |ts|, 0
  {
    if ts == [] then None
    else if ts[0] == Key(KNot) then NotR(ReadNot(ts[1..], env))
    else if IsGroup(ts) then ReadOr(ts[1..|ts| - 1], env)
    else if Dangling(ts) then None
    else Some(ReadAtom(ts, env))
  }

  /** An operator with nothing on its left or nothing on its right, or a list with an item
      missing. */
  predicate Dangling(ts: Tokens) {
    var i := FirstOp(ts, 0);
    i < |ts| && (i == 0 || i == |ts| - 1 || LacksItem(ts[i].k, ts[i + 1..]))
  }

  /** `IN ()`, `NOT IN ()`, or a list with nothing before, between or after its commas. */
  predicate LacksItem(op: Keyword, rest: Tokens) {
    match op
    case KIn => IsGroup(rest) && [] in Items(rest[1..|rest| - 1])
    case KNot => rest != [] && rest[0] == Key(KIn) && IsGroup(rest[1..]) && [] in Items(rest[2..|rest| - 1])
    case _ => false
  }

  function Compare(op: Comparison, x: Option<real>, y: Option<real>): Truth {
    if x.None? || y.None? then Unknown
    else
      var a, b := x.value, y.value;
      Of(match op
         case Eq => a == b
         case Ne => a != b
         case Diamond => a != b
         case Lt => a < b
         case Le => a <= b
         case Gt => a > b
         case Ge => a >= b)
  }

  /** `x IN (items)`: an OR of equalities, so a NULL item or a NULL x can leave it unknown. */
  function InList(x: Option<real>, items: seq<Tokens>, env: Env): Truth {
    if items == [] then False
    else Or3(Compare(Eq, x, env.value(items[0])), InList(x, items[1..], env))
  }

  predicate IsOperator(t: Lexeme) {
    t.Key? && t.k != KAnd && t.k != KOr
  }

  /** Position of the first operator outside brackets; the length when there is none. */
  function FirstOp(ts: Tokens, d: int): (n: nat)
    ensures n <= |ts|
    ensures n < |ts| ==> ts[n].Key?
  {
    if ts == [] || (d == 0 && IsOperator(ts[0])) then 0
    else 1 + FirstOp(ts[1..], Depth(d, ts[0]))
  }

  /** Position of the first comma outside brackets; the length when there is none. */
  function FirstComma(ts: Tokens, d: int): (n: nat)
    ensures n <= |ts|
  {
    if ts == [] || (d == 0 && ts[0] == Punct(',')) then 0
    else 1 + FirstComma(ts[1..], Depth(d, ts[0]))
  }

  /** What stands between the commas, empty stretches included. */
  function Items(ts: Tokens): seq<Tokens> {
    var i := FirstComma(ts, 0);
    if i < |ts| then [ts[..i]] + Items(ts[i + 1..]) else [ts]
  }

  /** `x op rest`; `other` is the meaning when this is no comparison the reader knows. */
  function ReadTail(x: Option<real>, op: Keyword, rest: Tokens, other: Truth, env: Env): Truth {
    match op
    case KCmp(c) => Compare(c, x, env.value(rest))
    case KIs =>
      if rest == [Word("NULL")] then Of(x.None?)
      else if rest == [Key(KNot), Word("NULL")] then Of(x.Some?)
      else other
    case KBetween =>
      var j := FirstCut(AndLevel, rest, Start);
      if j < |rest| then And3(Compare(Ge, x, env.value(rest[..j])), Compare(Le, x, env.value(rest[j + 1..])))
      else other
    case KIn => if IsGroup(rest) then InList(x, Items(rest[1..|rest| - 1]), env) else other
    case KNot =>
      if rest != [] && rest[0] == Key(KIn) && IsGroup(rest[1..]) then
        Not3(InList(x, Items(rest[2..|rest| - 1]), env))
      else other
    case _ => other
  }

  function ReadAtom(ts: Tokens, env: Env): Truth {
    var i := FirstOp(ts, 0);
    if i == |ts| then env.truth(ts)
    else ReadTail(env.value(ts[..i]), ts[i].k, ts[i + 1..], env.truth(ts), env)
  }

  /** The meaning of SQL text in a row; None when some part of it is missing or a quote is never
      closed. */
  function ReadText(s: string, env: Env): Option<Truth> {
    if Punct('\'') in Lex(s) then None else ReadOr(DropSpaces(Lex(s)), env)
  }

  /** Legible text is read from the lexemes it was printed from. */
  lemma ReadRendered(ls: seq<Lexeme>, env: Env)
    requires WellSpaced(ls) && AllLegible(ls)
    ensures ReadText(Render(ls), env) == ReadOr(DropSpaces(ls), env)
  {
    LexRender(ls);
    assert !Lexable(Punct('\''));
  }

  // ----- facts about scanning -----

  lemma {:induction false} DropSpacesAppend(a: seq<Lexeme>, b: seq<Lexeme>)
    ensures DropSpaces(a + b) == DropSpaces(a) + DropSpaces(b)
  {
    if a == [] {
      assert a + b == b;
    } else {
      assert (a + b)[1..] == a[1..] + b;
      DropSpacesAppend(a[1..], b);
    }
  }

  lemma {:induction false} RunAppend(a: Tokens, b: Tokens, st: Scan)
    ensures Run(a + b, st) == Run(b, Run(a, st))
  {
    if a == [] {
      assert a + b == b;
    } else {
      assert (a + b)[1..] == a[1..] + b;
      RunAppend(a[1..], b, Next(st, a[0]));
    }
  }

  lemma {:induction false} FirstCutAppend(level: Level, a: Tokens, b: Tokens, st: Scan)
    ensures FirstCut(level, a + b, st) ==
            if FirstCut(level, a, st) < |a| then FirstCut(level, a, st)
            else |a| + FirstCut(level, b, Run(a, st))
  {
    if a == [] {
      assert a + b == b;
    } else {
      assert (a + b)[1..] == a[1..] + b;
      FirstCutAppend(level, a[1..], b, Next(st, a[0]));
    }
  }

  /** After a connective the scan is back where it started. */
  lemma {:induction false} AfterCut(level: Level, ts: Tokens, st: Scan)
    requires FirstCut(level, ts, st) < |ts|
    ensures var i := FirstCut(level, ts, st);
            ts[i] == Key(if level.OrLevel? then KOr else KAnd)
            && Run(ts, st) == Run(ts[i + 1..], Start)
  {
    var i := FirstCut(level, ts, st);
    if i == 0 {
      assert Next(st, ts[0]) == Start;
    } else {
      AfterCut(level, ts[1..], Next(st, ts[0]));
      assert ts[i + 1..] == ts[1..][i..];
    }
  }

  /** Brackets pair up, starting from `d` open ones. */
  predicate Balanced(ts: Tokens, d: int) {
    d >= 0 && if ts == [] then d == 0 else Balanced(ts[1..], Depth(d, ts[0]))
  }

  /** Balanced, with no keyword and no comma outside brackets. */
  predicate Inert(ts: Tokens, d: int) {
    && d >= 0
    && if ts == [] then d == 0
       else
         && (d == 0 ==> !ts[0].Key? && ts[0] != Punct(','))
         && Inert(ts[1..], Depth(d, ts[0]))
  }

  predicate Operand(ts: Tokens) {
    ts != [] && Inert(ts, 0)
  }

  lemma {:induction false} BalancedAppend(a: Tokens, b: Tokens, d: int)
    requires Balanced(a, d) && Balanced(b, 0)
    ensures Balanced(a + b, d)
  {
    if a == [] {
      assert a + b == b;
    } else {
      assert (a + b)[1..] == a[1..] + b;
      BalancedAppend(a[1..], b, Depth(d, a[0]));
    }
  }

  lemma {:induction false} InertAppend(a: Tokens, b: Tokens, d: int)
    requires Inert(a, d) && Inert(b, 0)
    ensures Inert(a + b, d)
  {
    if a == [] {
      assert a + b == b;
    } else {
      assert (a + b)[1..] == a[1..] + b;
      InertAppend(a[1..], b, Depth(d, a[0]));
    }
  }

  lemma {:induction false} InertBalanced(a: Tokens, d: int)
    requires Inert(a, d)
    ensures Balanced(a, d)
  {
    if a != [] {
      InertBalanced(a[1..], Depth(d, a[0]));
    }
  }

  // An operand in front of anything is skipped by every scan.

  lemma {:induction false} RunInert(a: Tokens, d: int, p: bool)
    requires Inert(a, d)
    ensures Run(a, Scan(d, p)) == Scan(0, p)
  {
    if a != [] {
      RunInert(a[1..], Depth(d, a[0]), p);
    }
  }

  lemma {:induction false} CutInert(level: Level, a: Tokens, b: Tokens, d: int, p: bool)
    requires Inert(a, d)
    ensures FirstCut(level, a + b, Scan(d, p)) == |a| + FirstCut(level, b, Scan(0, p))
  {
    if a == [] {
      assert a + b == b;
    } else {
      assert (a + b)[1..] == a[1..] + b;
      CutInert(level, a[1..], b, Depth(d, a[0]), p);
    }
  }

  lemma {:induction false} OpInert(a: Tokens, b: Tokens, d: int)
    requires Inert(a, d)
    ensures FirstOp(a + b, d) == |a| + FirstOp(b, 0)
  {
    if a == [] {
      assert a + b == b;
    } else {
      assert (a + b)[1..] == a[1..] + b;
      OpInert(a[1..], b, Depth(d, a[0]));
    }
  }

  lemma {:induction false} CommaInert(a: Tokens, b: Tokens, d: int)
    requires Inert(a, d)
    ensures FirstComma(a + b, d) == |a| + FirstComma(b, 0)
  {
    if a == [] {
      assert a + b == b;
    } else {
      assert (a + b)[1..] == a[1..] + b;
      CommaInert(a[1..], b, Depth(d, a[0]));
    }
  }

  // ----- brackets -----

  function Group(ts: Tokens): Tokens {
    [Punct('(')] + ts + [Punct(')')]
  }

  lemma {:induction false} InertInside(a: Tokens, d: int)
    requires Balanced(a, d)
    ensures Inert(a + [Punct(')')], d + 1)
  {
    var s := a + [Punct(')')];
    if a == [] {
      assert s[1..] == [];
    } else {
      assert s[1..] == a[1..] + [Punct(')')];
      InertInside(a[1..], Depth(d, a[0]));
    }
  }

  lemma {:induction false} ClosingInside(a: Tokens, d: int)
    requires Balanced(a, d)
    ensures ClosingIndex(a + [Punct(')')], d + 1) == |a|
  {
    var s := a + [Punct(')')];
    if a != [] {
      assert s[1..] == a[1..] + [Punct(')')];
      ClosingInside(a[1..], Depth(d, a[0]));
    }
  }

  lemma GroupFacts(ts: Tokens)
    requires Balanced(ts, 0)
    ensures IsGroup(Group(ts)) && Group(ts)[1..|Group(ts)| - 1] == ts
    ensures Inert(Group(ts), 0)
  {
    var g := Group(ts);
    assert g[0] == Punct('(') && g[1..] == ts + [Punct(')')];
    ClosingInside(ts, 0);
    InertInside(ts, 0);
  }

  lemma NoCutInert(ts: Tokens)
    requires Inert(ts, 0)
    ensures FirstCut(OrLevel, ts, Start) == |ts| && FirstCut(AndLevel, ts, Start) == |ts|
  {
    CutInert(OrLevel, ts, [], 0, false);
    CutInert(AndLevel, ts, [], 0, false);
    assert ts + [] == ts;
  }

  /** A bracketed condition is read as the condition itself. */
  lemma ReadGroup(ts: Tokens, env: Env)
    requires Balanced(ts, 0)
    ensures ReadOr(Group(ts), env) == ReadAnd(Group(ts), env) == ReadNot(Group(ts), env) == ReadOr(ts, env)
  {
    GroupFacts(ts);
    NoCutInert(Group(ts));
  }

  /** `NOT (P)` is the three-valued negation of `P`. */
  lemma ReadNegatedGroup(ts: Tokens, env: Env)
    requires Balanced(ts, 0)
    ensures ReadOr([Key(KNot)] + Group(ts), env) == NotR(ReadOr(ts, env))
  {
    var g := Group(ts);
    var ng := [Key(KNot)] + g;
    GroupFacts(ts);
    NoCutInert(g);
    ReadGroup(ts, env);
    assert ng[1..] == g;
    assert FirstCut(OrLevel, ng, Start) == |ng|;
    assert FirstCut(AndLevel, ng, Start) == |ng|;
    assert ReadNot(ng, env) == NotR(ReadNot(g, env));
    assert ReadOr(ng, env) == ReadAnd(ng, env) == ReadNot(ng, env);
  }

  // ----- atoms: an operand and what follows it -----

  lemma {:induction false} ClosesEarly(a: Tokens, b: Tokens, d: int)
    requires Inert(a, d) && d >= 1
    ensures ClosingIndex(a + b, d) < |a|
  {
    assert (a + b)[1..] == a[1..] + b;
    if Depth(d, a[0]) >= 1 {
      ClosesEarly(a[1..], b, Depth(d, a[0]));
    }
  }

  /** An operand followed by more text is not one bracketed group. */
  lemma NotAGroup(x: Tokens, b: Tokens)
    requires Operand(x) && b != []
    ensures !IsGroup(x + b)
  {
    var ts := x + b;
    if ts[0] == Punct('(') {
      assert ts[1..] == x[1..] + b;
      ClosesEarly(x[1..], b, 1);
    }
  }

  /** A tail with no connective of its own leaves the scan where it started. */
  predicate Closed(ts: Tokens) {
    && Balanced(ts, 0)
    && Run(ts, Start) == Start
    && FirstCut(OrLevel, ts, Start) == |ts|
  }

  lemma ClosedAfterOperand(x: Tokens, b: Tokens)
    requires Operand(x) && Closed(b)
    ensures Closed(x + b)
  {
    RunInert(x, 0, false);
    RunAppend(x, b, Start);
    CutInert(OrLevel, x, b, 0, false);
    InertBalanced(x, 0);
    BalancedAppend(x, b, 0);
  }

  lemma ReadAtomShape(x: Tokens, b: Tokens, env: Env)
    requires Operand(x) && |b| >= 2 && IsOperator(b[0])
    requires Closed(b) && FirstCut(AndLevel, b, Start) == |b|
    ensures Closed(x + b)
    ensures ReadOr(x + b, env) == ReadAnd(x + b, env)
            == if LacksItem(b[0].k, b[1..]) then None
               else Some(ReadTail(env.value(x), b[0].k, b[1..], env.truth(x + b), env))
  {
    hide ReadTail, LacksItem;
    var ts := x + b;
    ClosedAfterOperand(x, b);
    CutInert(AndLevel, x, b, 0, false);
    OpInert(x, b, 0);
    assert FirstOp(b, 0) == 0;
    NotAGroup(x, b);
    assert ts[0] == x[0];
    assert ts[..|x|] == x && ts[|x| + 1..] == b[1..] && ts[|x|] == b[0];
    assert Dangling(ts) <==> LacksItem(b[0].k, b[1..]);
  }

  /** What stands to the right of an operator. */
  lemma OperatorTail(op: Keyword, y: Tokens)
    requires op !in {KAnd, KOr, KBetween} && Inert(y, 0)
    ensures var b := [Key(op)] + y; Closed(b) && FirstCut(AndLevel, b, Start) == |b|
  {
    var b := [Key(op)] + y;
    assert b[1..] == y;
    NoCutInert(y);
    RunInert(y, 0, false);
    InertBalanced(y, 0);
  }

  lemma ReadComparison(x: Tokens, op: Comparison, y: Tokens, env: Env)
    requires Operand(x) && Operand(y)
    ensures var ts := x + [Key(KCmp(op))] + y;
            Closed(ts) && ReadOr(ts, env) == ReadAnd(ts, env) == Some(Compare(op, env.value(x), env.value(y)))
  {
    var b := [Key(KCmp(op))] + y;
    OperatorTail(KCmp(op), y);
    ReadAtomShape(x, b, env);
    assert x + [Key(KCmp(op))] + y == x + b && b[1..] == y;
  }

  lemma ReadIsNull(x: Tokens, env: Env)
    requires Operand(x)
    ensures var ts := x + [Key(KIs)] + [Word("NULL")];
            Closed(ts) && ReadOr(ts, env) == Some(Of(env.value(x).None?))
  {
    var b := [Key(KIs), Word("NULL")];
    assert b == [Key(KIs)] + b[1..] && b[1..] == [Word("NULL")] && b[2..] == [];
    OperatorTail(KIs, b[1..]);
    ReadAtomShape(x, b, env);
    assert x + [Key(KIs)] + [Word("NULL")] == x + b;
  }

  lemma IsNotNullTail()
    ensures var b := [Key(KIs), Key(KNot), Word("NULL")]; Closed(b) && FirstCut(AndLevel, b, Start) == |b|
  {
    var b := [Key(KIs), Key(KNot), Word("NULL")];
    var c := [Key(KNot), Word("NULL")];
    assert b[1..] == c && c == [Key(KNot)] + c[1..] && c[1..] == [Word("NULL")] && c[2..] == [];
    OperatorTail(KNot, c[1..]);
  }

  lemma ReadIsNotNull(x: Tokens, env: Env)
    requires Operand(x)
    ensures var ts := x + [Key(KIs)] + [Key(KNot)] + [Word("NULL")];
            Closed(ts) && ReadOr(ts, env) == Some(Of(env.value(x).Some?))
  {
    var b := [Key(KIs), Key(KNot), Word("NULL")];
    IsNotNullTail();
    ReadAtomShape(x, b, env);
    assert b[1..] == [Key(KNot), Word("NULL")];
    assert x + [Key(KIs)] + [Key(KNot)] + [Word("NULL")] == x + b;
  }

  /** The AND of a BETWEEN is never taken for a connective. */
  lemma BetweenTail(lo: Tokens, hi: Tokens)
    requires Operand(lo) && Operand(hi)
    ensures var rest := lo + ([Key(KAnd)] + hi);
            var b := [Key(KBetween)] + rest;
            && Closed(b) && FirstCut(AndLevel, b, Start) == |b|
            && FirstCut(AndLevel, rest, Start) == |lo|
  {
    var c := [Key(KAnd)] + hi;
    var rest := lo + c;
    var b := [Key(KBetween)] + rest;
    assert c[1..] == hi && b[1..] == rest;
    NoCutInert(hi);
    RunInert(hi, 0, false);
    InertBalanced(hi, 0);
    InertBalanced(lo, 0);
    BalancedAppend(lo, c, 0);
    RunInert(lo, 0, true);
    RunAppend(lo, c, Scan(0, true));
    CutInert(OrLevel, lo, c, 0, true);
    CutInert(AndLevel, lo, c, 0, true);
    CutInert(AndLevel, lo, c, 0, false);
  }

  lemma BetweenValue(x: Option<real>, lo: Tokens, hi: Tokens, other: Truth, env: Env)
    requires Operand(lo) && Operand(hi)
    ensures ReadTail(x, KBetween, lo + ([Key(KAnd)] + hi), other, env) ==
            And3(Compare(Ge, x, env.value(lo)), Compare(Le, x, env.value(hi)))
  {
    var rest := lo + ([Key(KAnd)] + hi);
    BetweenTail(lo, hi);
    assert rest[..|lo|] == lo && rest[|lo| + 1..] == hi;
  }

  lemma ReadBetween(x: Tokens, lo: Tokens, hi: Tokens, env: Env)
    requires Operand(x) && Operand(lo) && Operand(hi)
    ensures var ts := x + [Key(KBetween)] + lo + [Key(KAnd)] + hi;
            && Closed(ts)
            && ReadOr(ts, env) == Some(And3(Compare(Ge, env.value(x), env.value(lo)),
                                            Compare(Le, env.value(x), env.value(hi))))
  {
    hide Closed, ReadOr, ReadAnd, ReadTail, FirstCut, Operand;
    var rest := lo + ([Key(KAnd)] + hi);
    var b := [Key(KBetween)] + rest;
    BetweenTail(lo, hi);
    ReadAtomShape(x, b, env);
    BetweenValue(env.value(x), lo, hi, env.truth(x + b), env);
    assert b[1..] == rest;
    assert x + [Key(KBetween)] + lo + [Key(KAnd)] + hi == x + b;
  }

  lemma InValue(x: Option<real>, list: Tokens, other: Truth, env: Env)
    ensures ReadTail(x, KIn, Group(list), other, env) == InList(x, Items(list), env) || !IsGroup(Group(list))
    ensures IsGroup(Group(list)) ==> (LacksItem(KIn, Group(list)) <==> [] in Items(list))
  {
    var g := Group(list);
    assert g[1..|g| - 1] == list;
  }

  /** A list is read unless an item is missing. */
  lemma ReadIn(x: Tokens, list: Tokens, env: Env)
    requires Operand(x) && Balanced(list, 0)
    ensures var ts := x + [Key(KIn)] + Group(list);
            Closed(ts)
            && ReadOr(ts, env) == if [] in Items(list) then None else Some(InList(env.value(x), Items(list), env))
  {
    hide Closed, ReadOr, ReadAnd, ReadTail, LacksItem, InList, Items, Inert, IsGroup, Balanced, FirstCut, Operand;
    var g := Group(list);
    var b := [Key(KIn)] + g;
    GroupFacts(list);
    OperatorTail(KIn, g);
    ReadAtomShape(x, b, env);
    InValue(env.value(x), list, env.truth(x + b), env);
    assert b[1..] == g && x + [Key(KIn)] + g == x + b;
  }

  lemma NotInTail(list: Tokens)
    requires Balanced(list, 0)
    ensures var c := [Key(KNot)] + ([Key(KIn)] + Group(list));
            Closed(c) && FirstCut(AndLevel, c, Start) == |c|
  {
    var b := [Key(KIn)] + Group(list);
    var c := [Key(KNot)] + b;
    GroupFacts(list);
    OperatorTail(KIn, Group(list));
    assert c[1..] == b;
  }

  lemma NotInValue(x: Option<real>, list: Tokens, other: Truth, env: Env)
    requires Balanced(list, 0)
    ensures ReadTail(x, KNot, [Key(KIn)] + Group(list), other, env) == Not3(InList(x, Items(list), env))
    ensures LacksItem(KNot, [Key(KIn)] + Group(list)) <==> [] in Items(list)
  {
    var g := Group(list);
    var b := [Key(KIn)] + g;
    GroupFacts(list);
    assert b[1..] == g && b[2..|b| - 1] == list;
  }

  lemma ReadNotIn(x: Tokens, list: Tokens, env: Env)
    requires Operand(x) && Balanced(list, 0)
    ensures var ts := x + [Key(KNot)] + [Key(KIn)] + Group(list);
            Closed(ts)
            && ReadOr(ts, env) == if [] in Items(list) then None else Some(Not3(InList(env.value(x), Items(list), env)))
  {
    hide Closed, ReadOr, ReadAnd, ReadTail, LacksItem, InList, Items, Inert, IsGroup, Balanced, FirstCut, Operand;
    var b := [Key(KIn)] + Group(list);
    var c := [Key(KNot)] + b;
    NotInTail(list);
    ReadAtomShape(x, c, env);
    NotInValue(env.value(x), list, env.truth(x + c), env);
    assert c[1..] == b;
    assert x + [Key(KNot)] + [Key(KIn)] + Group(list) == x + c;
  }

  /** A bare boolean operand is read by the environment. */
  lemma ReadTruth(x: Tokens, env: Env)
    requires Operand(x) && !IsGroup(x)
    ensures Closed(x)
    ensures ReadOr(x, env) == ReadAnd(x, env) == ReadNot(x, env) == Some(env.truth(x))
    ensures var ts := [Key(KNot)] + x; Closed(ts) && ReadOr(ts, env) == Some(Not3(env.truth(x)))
  {
    NoCutInert(x);
    RunInert(x, 0, false);
    InertBalanced(x, 0);
    OpInert(x, [], 0);
    assert x + [] == x;
    var ts := [Key(KNot)] + x;
    assert ts[1..] == x;
    assert FirstCut(OrLevel, ts, Start) == |ts| && FirstCut(AndLevel, ts, Start) == |ts|;
    assert ReadNot(ts, env) == NotR(ReadNot(x, env));
    assert ReadOr(ts, env) == ReadAnd(ts, env) == ReadNot(ts, env);
  }

  // ----- connectives between closed pieces -----

  lemma AndStep(ts: Tokens, a: Tokens, b: Tokens, env: Env)
    requires ts == a + [Key(KAnd)] + b && FirstCut(AndLevel, ts, Start) == |a|
    ensures ReadAnd(ts, env) == AndR(ReadNot(a, env), ReadAnd(b, env))
  {
    assert ts[..|a|] == a && ts[|a| + 1..] == b;
  }

  lemma CutParts(f: Tokens, i: nat, w: Lexeme, rest: Tokens)
    requires i < |f| && f[i] == w
    ensures f == f[..i] + [w] + f[i + 1..]
    ensures f + [w] + rest == f[..i] + [w] + (f[i + 1..] + [w] + rest)
  {
  }

  lemma AndCut(f: Tokens, rest: Tokens)
    requires Run(f, Start) == Start
    ensures FirstCut(AndLevel, f + [Key(KAnd)] + rest, Start) == FirstCut(AndLevel, f, Start)
  {
    var tail := [Key(KAnd)] + rest;
    FirstCutAppend(AndLevel, f, tail, Start);
    assert FirstCut(AndLevel, tail, Start) == 0;
    assert f + [Key(KAnd)] + rest == f + tail;
  }

  /** AND joins the readings of what stands on its two sides, however many ANDs those hold. */
  lemma AndUncut(f: Tokens, env: Env)
    requires FirstCut(AndLevel, f, Start) == |f|
    ensures ReadAnd(f, env) == ReadNot(f, env)
  {
  }

  lemma AndAssociates(a: Option<Truth>, b: Option<Truth>, c: Option<Truth>)
    ensures AndR(AndR(a, b), c) == AndR(a, AndR(b, c))
  {
  }

  lemma {:induction false} ReadAndAppend(f: Tokens, rest: Tokens, env: Env)
    requires Run(f, Start) == Start
    ensures ReadAnd(f + [Key(KAnd)] + rest, env) == AndR(ReadAnd(f, env), ReadAnd(rest, env))
    decreases |f|
  {
    hide ReadNot, ReadAnd, Run, AndR;
    var i, ts := FirstCut(AndLevel, f, Start), f + [Key(KAnd)] + rest;
    AndCut(f, rest);
    if i == |f| {
      AndUncut(f, env);
      AndStep(ts, f, rest, env);
    } else {
      var f0, f1 := f[..i], f[i + 1..];
      AfterCut(AndLevel, f, Start);
      CutParts(f, i, Key(KAnd), rest);
      ReadAndAppend(f1, rest, env);
      AndStep(f, f0, f1, env);
      AndStep(ts, f0, f1 + [Key(KAnd)] + rest, env);
      AndAssociates(ReadNot(f0, env), ReadAnd(f1, env), ReadAnd(rest, env));
    }
  }

  lemma ReadOrAppend(f: Tokens, rest: Tokens, env: Env)
    requires Closed(f)
    ensures ReadOr(f + [Key(KOr)] + rest, env) == OrR(ReadOr(f, env), ReadOr(rest, env))
    ensures FirstCut(OrLevel, f + [Key(KOr)] + rest, Start) == |f|
  {
    var tail := [Key(KOr)] + rest;
    var ts := f + [Key(KOr)] + rest;
    assert ts == f + tail;
    FirstCutAppend(OrLevel, f, tail, Start);
    assert ts[..|f|] == f && ts[|f| + 1..] == rest;
  }

  lemma ClosedAnd(f: Tokens, rest: Tokens)
    requires Closed(f) && Closed(rest)
    ensures Closed(f + [Key(KAnd)] + rest)
  {
    var tail := [Key(KAnd)] + rest;
    assert tail[1..] == rest && f + [Key(KAnd)] + rest == f + tail;
    RunAppend(f, tail, Start);
    FirstCutAppend(OrLevel, f, tail, Start);
    BalancedAppend(f, tail, 0);
  }
}
