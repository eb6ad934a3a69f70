/**
 The texts of the native checks, written down a second time as plain strings. Each compiler
 prints exactly its text, for every argument, and raises exactly where the text does.
 */
module NativeText {
  import opened Text
  import opened SqlText
  import opened LowcodeRows
  import opened NativePredicates
  import L = LowcodeText

  // ----- arguments -----

  /** `^\{\{\s*(.+?)\s*\}\}$` on stripped text: white space, text on one line, white space. */
  ghost predicate IsSlotText(text: string) {
    exists lead, name, tail ::
      && text == "{{" + (lead + name + tail) + "}}"
      && Spaces(lead) && Spaces(tail) && name != "" && '\n' !in name
  }

  lemma BracesAround(text: string, inner: string)
    requires text == "{{" + inner + "}}"
    ensures |text| >= 4 && IsSlotOpen(text) && text[|text| - 2..] == "}}" && text[2..|text| - 2] == inner
  {
  }

  lemma BracesOpen(text: string)
    requires |text| >= 4 && IsSlotOpen(text) && text[|text| - 2..] == "}}"
    ensures text == "{{" + text[2..|text| - 2] + "}}"
  {
    assert text == text[..2] + text[2..|text| - 2] + text[|text| - 2..];
  }

  /** The inner text of a slot, split as the pattern splits it. */
  lemma PatternSplits(inner: string) returns (lead: string, name: string, tail: string)
    requires SlotPattern(inner)
    ensures inner == lead + name + tail && Spaces(lead) && Spaces(tail) && name != "" && '\n' !in name
  {
    lead, tail := StripSplits(inner);
    name := Strip(inner);
    if name == "" {
      var i :| 0 <= i < |inner| && inner[i] != '\n';
      lead, name, tail := inner[..i], [inner[i]], inner[i + 1..];
    }
  }

  /** Stripped text lies inside the part that is not surrounding white space. */
  lemma PatternHolds(lead: string, name: string, tail: string)
    requires Spaces(lead) && Spaces(tail) && name != "" && '\n' !in name
    ensures SlotPattern(lead + name + tail)
  {
    var inner := lead + name + tail;
    var before, after := StripSplits(inner);
    var m := Strip(inner);
    assert inner[|lead|] == name[0] && inner[|lead|] in inner;
    if m != "" {
      assert inner[|before|] == m[0] && inner[|inner| - |after| - 1] == m[|m| - 1];
      OutsideIsSpace(lead, name, tail, |before|);
      OutsideIsSpace(lead, name, tail, |inner| - |after| - 1);
      forall j | 0 <= j < |m|
        ensures m[j] != '\n'
      {
        assert m[j] == inner[|before| + j] == name[|before| + j - |lead|];
      }
    }
  }

  lemma OutsideIsSpace(lead: string, name: string, tail: string, k: nat)
    requires Spaces(lead) && Spaces(tail) && k < |lead + name + tail|
    ensures |lead| <= k < |lead| + |name| || IsSpace((lead + name + tail)[k])
  {
    var inner := lead + name + tail;
    if k < |lead| {
      assert inner[k] == lead[k] && lead[k] in lead;
    } else if k >= |lead| + |name| {
      assert inner[k] == tail[k - |lead| - |name|] && tail[k - |lead| - |name|] in tail;
    }
  }

  lemma AcceptedShows(s: string)
    requires ColumnSql(Value.Text(s)).Some?
    ensures IsSlotText(Strip(s)) && Render(ColumnSql(Value.Text(s)).value) == Strip(s)
  {
    hide SlotPattern, Strip, Render;
    var text := Strip(s);
    BracesOpen(text);
    var lead, name, tail := PatternSplits(text[2..|text| - 2]);
    RenderOne(Slot(text[2..|text| - 2]));
  }

  lemma SlotTextAccepted(s: string)
    requires IsSlotText(Strip(s))
    ensures ColumnSql(Value.Text(s)).Some?
  {
    hide SlotPattern, Strip;
    var text := Strip(s);
    var lead, name, tail :| text == "{{" + (lead + name + tail) + "}}" && Spaces(lead) && Spaces(tail)
                            && name != "" && '\n' !in name;
    BracesAround(text, lead + name + tail);
    PatternHolds(lead, name, tail);
  }

  /** An argument is a column exactly when it is a string that, stripped, is one line of text and
      white space between double braces; it is emitted as that stripped text. */
  lemma ColumnAcceptedIff(column: Value)
    ensures ColumnSql(column).Some? <==> column.Text? && IsSlotText(Strip(column.s))
    ensures ColumnSql(column).Some? ==> Render(ColumnSql(column).value) == Strip(column.s)
  {
    hide IsSlotText, Strip, Render;
    if column.Text? {
      if ColumnSql(column).Some? {
        AcceptedShows(column.s);
      }
      if IsSlotText(Strip(column.s)) {
        SlotTextAccepted(column.s);
      }
    }
  }

  // ----- the texts -----

  function ScalarText(v: Value): Option<string> {
    match v
    case Null => Some("NULL")
    case Bool(true) => Some("TRUE")
    case Bool(false) => Some("FALSE")
    case Num(text) => Some(text)
    case Text(s) => Some(StringText(s))
    case _ => None
  }

  function ScalarTexts(vs: seq<Value>): Option<seq<string>> {
    if vs == [] then Some([])
    else
      var first :- ScalarText(vs[0]);
      var rest :- ScalarTexts(vs[1..]);
      Some([first] + rest)
  }

  function CastText(col: string, trim: bool): string {
    if trim then "TRIM(CAST(" + col + " AS STRING))" else "CAST(" + col + " AS STRING)"
  }

  function NullText(col: string, expectNull: bool): string {
    if expectNull then "(" + col + " IS NULL)" else "(" + col + " IS NOT NULL)"
  }

  function EmptyText(col: string, trim: bool, expectEmpty: bool): string {
    "(" + CastText(col, trim) + (if expectEmpty then " = '')" else " <> '')")
  }

  function NullOrEmptyText(col: string, trim: bool): string {
    "(" + col + " IS NULL OR " + CastText(col, trim) + " = '')"
  }

  function NotNullAndNotEmptyText(col: string, trim: bool): string {
    "(" + col + " IS NOT NULL AND " + CastText(col, trim) + " <> '')"
  }

  /** The tests of the limits that are given, joined; None without any. */
  function LimitsText(col: string, low: string, minLimit: Value, joiner: string, high: string, maxLimit: Value)
    : Option<string>
  {
    if minLimit.Null? && maxLimit.Null? then None
    else
      var lo :- ScalarText(minLimit);
      var hi :- ScalarText(maxLimit);
      var atLeast := if minLimit.Null? then [] else [col + low + lo];
      var atMost := if maxLimit.Null? then [] else [col + high + hi];
      Some("(" + Join(atLeast + atMost, joiner) + ")")
  }

  /** The items, each lowered when case does not matter. */
  function ListText(col: string, values: Value, caseSensitive: bool, lower: Value -> string): Option<string> {
    if !values.List? || values.items == [] then None
    else
      var items :- ScalarTexts(values.items);
      var lowered := seq(|values.items|, i requires 0 <= i < |values.items| => StringText(lower(values.items[i])));
      if caseSensitive then Some("(" + col + " IN (" + Join(items, ", ") + "))")
      else Some("(LOWER(CAST(" + col + " AS STRING)) IN (" + Join(lowered, ", ") + "))")
  }

  function AbsoluteText(col: string, val: string, abs: Tolerance): string {
    "ABS(" + col + " - " + val + ") <= " + abs.text
  }

  function RelativeText(col: string, val: string, rel: Tolerance): string {
    "ABS(" + col + " - " + val + ") <= " + rel.text + " * GREATEST(ABS(" + col + "), ABS(" + val + "))"
  }

  function ToleranceText(col: string, val: string, abs: Tolerance, rel: Tolerance): string {
    if abs.bound > 0.0 && rel.bound > 0.0 then
      "((" + AbsoluteText(col, val, abs) + ") OR (" + RelativeText(col, val, rel) + "))"
    else if abs.bound > 0.0 then "(" + AbsoluteText(col, val, abs) + ")"
    else if rel.bound > 0.0 then "(" + RelativeText(col, val, rel) + ")"
    else "(" + col + " = " + val + ")"
  }

  // ----- each check is printed so -----

  lemma ScalarPrints(v: Value)
    ensures Scalar(v).Some? == ScalarText(v).Some?
    ensures Scalar(v).Some? ==> Render([Scalar(v).value]) == ScalarText(v).value
  {
    hide Render, DoubleQuotes, Backslashed;
    if Scalar(v).Some? {
      RenderOne(Scalar(v).value);
    }
  }

  lemma {:induction false} ScalarsPrint(vs: seq<Value>)
    ensures Scalars(vs).Some? == ScalarTexts(vs).Some?
    ensures Scalars(vs).Some? ==> Render(Itemized(Scalars(vs).value)) == Join(ScalarTexts(vs).value, ", ")
    ensures ScalarTexts(vs).Some? ==> |ScalarTexts(vs).value| == |vs|
  {
    hide Render, Scalar, ScalarText, Itemized, Join;
    if vs == [] {
      NothingItemized();
    } else {
      ScalarPrints(vs[0]);
      ScalarsPrint(vs[1..]);
      if Scalars(vs).Some? {
        ItemizedCons(Scalar(vs[0]).value, Scalars(vs[1..]).value, ScalarTexts(vs[1..]).value);
      }
    }
  }

  lemma NothingItemized()
    ensures Render(Itemized([])) == "" && Join([], ", ") == ""
  {
  }

  lemma ItemizedCons(l: Lexeme, items: seq<Lexeme>, texts: seq<string>)
    requires |items| == |texts| && Render(Itemized(items)) == Join(texts, ", ")
    ensures Render(Itemized([l] + items)) == Join([Render([l])] + texts, ", ")
  {
    hide Render;
    assert ([l] + items)[1..] == items && ([Render([l])] + texts)[1..] == texts;
    if items != [] {
      L.CommaSpaceText([l], Itemized(items));
    }
  }

  lemma {:induction false} StringsPrint(vs: seq<string>)
    ensures var items := seq(|vs|, i requires 0 <= i < |vs| => Str(Backslashed(vs[i])));
            var texts := seq(|vs|, i requires 0 <= i < |vs| => StringText(vs[i]));
            Render(Itemized(items)) == Join(texts, ", ")
  {
    hide Render, Itemized, Join, Backslashed, DoubleQuotes;
    var items := seq(|vs|, i requires 0 <= i < |vs| => Str(Backslashed(vs[i])));
    var texts := seq(|vs|, i requires 0 <= i < |vs| => StringText(vs[i]));
    if vs == [] {
      NothingItemized();
      assert items == [] && texts == [];
    } else {
      var rest := vs[1..];
      StringsPrint(rest);
      var laterItems := seq(|rest|, i requires 0 <= i < |rest| => Str(Backslashed(rest[i])));
      var laterTexts := seq(|rest|, i requires 0 <= i < |rest| => StringText(rest[i]));
      RenderOne(Str(Backslashed(vs[0])));
      ItemizedCons(Str(Backslashed(vs[0])), laterItems, laterTexts);
      assert items == [Str(Backslashed(vs[0]))] + laterItems;
      assert texts == [Render([Str(Backslashed(vs[0]))])] + laterTexts;
    }
  }

  lemma CastWords(x: string)
    ensures ("CAST" + "(") + (x + (" " + "AS" + " ") + "STRING") + ")" == "CAST(" + x + " AS STRING)"
    ensures ("TRIM" + "(") + ("CAST(" + x + " AS STRING)") + ")" == "TRIM(CAST(" + x + " AS STRING))"
  {
    assert "CAST" + "(" == "CAST(" && "TRIM" + "(" + "CAST(" == "TRIM(CAST(" && " AS STRING)" + ")" == " AS STRING))";
    assert " " + "AS" + " " + "STRING" + ")" == " AS STRING)";
    Regroup("CAST(", x + (" " + "AS" + " ") + "STRING", ")");
  }

  lemma CastPrints(col: Lexemes, trim: bool)
    ensures Render(StringColumn(col, trim)) == CastText(Render(col), trim)
  {
    hide Render, Call, Infix;
    RenderOne(Word("STRING"));
    L.WordInfixText(col, "AS", [Word("STRING")]);
    L.CallOneText("CAST", Infix(col, Word("AS"), [Word("STRING")]));
    L.CallOneText("TRIM", Call("CAST", Infix(col, Word("AS"), [Word("STRING")])));
    CastWords(Render(col));
  }

  lemma EmptyShows()
    ensures Render(EMPTY) == "''"
  {
    RenderOne(Str(""));
  }

  /** `is_null` and `is_not_null` */
  lemma NullPrints(col: Lexemes, expectNull: bool)
    ensures Render(Brackets(NullTest(col, expectNull))) == NullText(Render(col), expectNull)
  {
    hide Render, Brackets, NullTest;
    NullCheckText(col, expectNull);
    BracketsText(NullTest(col, expectNull));
    Regroup("(" + Render(col), if expectNull then " IS NULL" else " IS NOT NULL", ")");
    Regroup("(", Render(col), if expectNull then " IS NULL" else " IS NOT NULL");
    assert " IS NULL" + ")" == " IS NULL)" && " IS NOT NULL" + ")" == " IS NOT NULL)";
  }

  lemma InBrackets(s: string, t: string)
    ensures "(" + (s + t) + ")" == "(" + s + (t + ")")
  {
    Regroup("(", s, t);
    Regroup("(" + s, t, ")");
  }

  /** A comparison with the empty string. */
  lemma EmptyTestShows(x: Lexemes, c: Comparison)
    requires c == Eq || c == Diamond
    ensures Render(Test(x, c, EMPTY)) == Render(x) + if c == Eq then " = ''" else " <> ''"
  {
    hide Render, Infix;
    EmptyShows();
    L.CompareShown(x, c, EMPTY);
    Regroup(Render(x), " " + Symbol(c) + " ", "''");
    assert " " + "=" + " " + "''" == " = ''" && " " + "<>" + " " + "''" == " <> ''";
  }

  lemma EmptyClosings()
    ensures " = ''" + ")" == " = '')" && " <> ''" + ")" == " <> '')"
  {
  }

  /** `is_empty` and `is_not_empty` */
  lemma EmptyPrints(col: Lexemes, trim: bool, expectEmpty: bool)
    ensures Render(Brackets(Test(StringColumn(col, trim), if expectEmpty then Eq else Diamond, EMPTY)))
            == EmptyText(Render(col), trim, expectEmpty)
  {
    hide Render, Brackets, Test, StringColumn, CastText;
    var c := if expectEmpty then Eq else Diamond;
    CastPrints(col, trim);
    EmptyTestShows(StringColumn(col, trim), c);
    BracketsText(Test(StringColumn(col, trim), c, EMPTY));
    InBrackets(CastText(Render(col), trim), if expectEmpty then " = ''" else " <> ''");
    EmptyClosings();
  }

  lemma NullTestShows(col: Lexemes)
    ensures Render(IsNullSql(col)) == Render(col) + " IS NULL"
    ensures Render(IsNotNullSql(col)) == Render(col) + " IS NOT NULL"
  {
    hide Render;
    NullCheckText(col, true);
    NullCheckText(col, false);
  }

  lemma Joiners()
    ensures " " + Spelling(KOr) + " " == " OR " && " " + Spelling(KAnd) + " " == " AND "
  {
  }

  /** A null test, joined to a test that follows it. */
  lemma NullJoins(col: Lexemes, isNull: bool, test: Lexemes)
    ensures Render(Brackets(if isNull then Or(IsNullSql(col), test) else And(IsNotNullSql(col), test)))
            == "(" + Render(col) + (if isNull then " IS NULL OR " else " IS NOT NULL AND ") + Render(test) + ")"
  {
    hide Render, Brackets, Infix, IsNullSql, IsNotNullSql, Spelling;
    NullTestShows(col);
    Joiners();
    InfixText(IsNullSql(col), KOr, test);
    InfixText(IsNotNullSql(col), KAnd, test);
    BracketsText(if isNull then Or(IsNullSql(col), test) else And(IsNotNullSql(col), test));
    var x, words := Render(col), if isNull then " IS NULL" + " OR " else " IS NOT NULL" + " AND ";
    assert " IS NULL" + " OR " == " IS NULL OR " && " IS NOT NULL" + " AND " == " IS NOT NULL AND ";
    Regroup(x, if isNull then " IS NULL" else " IS NOT NULL", if isNull then " OR " else " AND ");
    Regroup("(", x + words, Render(test));
    Regroup("(", x, words);
  }

  /** `is_null_or_empty` and `is_not_null_and_not_empty` */
  lemma NullOrEmptyPrints(col: Lexemes, trim: bool)
    ensures var s := StringColumn(col, trim);
            && Render(Brackets(Or(IsNullSql(col), Test(s, Eq, EMPTY)))) == NullOrEmptyText(Render(col), trim)
            && Render(Brackets(And(IsNotNullSql(col), Test(s, Diamond, EMPTY))))
               == NotNullAndNotEmptyText(Render(col), trim)
  {
    hide Render, Brackets, Test, StringColumn, CastText, Or, And, IsNullSql, IsNotNullSql;
    var s, x := StringColumn(col, trim), Render(col);
    CastPrints(col, trim);
    EmptyTestShows(s, Eq);
    EmptyTestShows(s, Diamond);
    NullJoins(col, true, Test(s, Eq, EMPTY));
    NullJoins(col, false, Test(s, Diamond, EMPTY));
    EmptyTails("(" + x + " IS NULL OR ", CastText(x, trim));
    EmptyTails("(" + x + " IS NOT NULL AND ", CastText(x, trim));
  }

  lemma EmptyTails(head: string, s: string)
    ensures head + (s + " = ''") + ")" == head + s + " = '')"
    ensures head + (s + " <> ''") + ")" == head + s + " <> '')"
  {
    EmptyClosings();
    Regroup(head, s, " = ''");
    Regroup(head + s, " = ''", ")");
    Regroup(head, s, " <> ''");
    Regroup(head + s, " <> ''", ")");
  }

  // ----- ranges -----

  lemma LimitsPrint(col: Lexemes, low: Comparison, minLimit: Value, joiner: Keyword, high: Comparison, maxLimit: Value)
    ensures var sql := Limits(col, low, minLimit, joiner, high, maxLimit);
            var text := LimitsText(Render(col), " " + Symbol(low) + " ", minLimit, " " + Spelling(joiner) + " ",
                                   " " + Symbol(high) + " ", maxLimit);
            sql.Some? == text.Some? && (sql.Some? ==> Render(sql.value) == text.value)
  {
    hide Render, Brackets, Infix, Scalar, ScalarText, Symbol, Spelling;
    NullScalar();
    ScalarPrints(minLimit);
    ScalarPrints(maxLimit);
    if Scalar(minLimit).Some? && Scalar(maxLimit).Some? {
      var lo, hi := [Scalar(minLimit).value], [Scalar(maxLimit).value];
      L.CompareShown(col, low, lo);
      L.CompareShown(col, high, hi);
      BracketsText(Test(col, low, lo));
      BracketsText(Test(col, high, hi));
      InfixText(Test(col, low, lo), joiner, Test(col, high, hi));
      BracketsText(Infix(Test(col, low, lo), Key(joiner), Test(col, high, hi)));
      JoinPair(Render(Test(col, low, lo)), Render(Test(col, high, hi)), " " + Spelling(joiner) + " ");
    }
  }

  lemma NullScalar()
    ensures Scalar(Null).Some? && ScalarText(Null).Some?
  {
  }

  lemma JoinPair(a: string, b: string, sep: string)
    ensures Join([a] + [], sep) == a && Join([] + [b], sep) == b && Join([a] + [b], sep) == a + sep + b
  {
    assert [a] + [] == [a] && [] + [b] == [b] && ([a] + [b])[1..] == [b];
  }

  /** `is_in_range` and `is_not_in_range` */
  lemma RangesPrint(column: Value, minLimit: Value, maxLimit: Value)
    requires ColumnSql(column).Some?
    ensures var col := Render(ColumnSql(column).value);
            var sql, text := InRange(column, minLimit, maxLimit),
                             LimitsText(col, " >= ", minLimit, " AND ", " <= ", maxLimit);
            sql.Some? == text.Some? && (sql.Some? ==> Render(sql.value) == text.value)
    ensures var col := Render(ColumnSql(column).value);
            var sql, text := NotInRange(column, minLimit, maxLimit),
                             LimitsText(col, " < ", minLimit, " OR ", " > ", maxLimit);
            sql.Some? == text.Some? && (sql.Some? ==> Render(sql.value) == text.value)
  {
    hide Render, Limits, LimitsText, ColumnSql, Symbol, Spelling;
    L.Symbols();
    Joiners();
    LimitsPrint(ColumnSql(column).value, Ge, minLimit, KAnd, Le, maxLimit);
    LimitsPrint(ColumnSql(column).value, Lt, minLimit, KOr, Gt, maxLimit);
  }

  // ----- lists -----

  /** `x IN (items)` between brackets. */
  lemma InTestShows(x: Lexemes, items: Lexemes)
    ensures Render(Brackets(Infix(x, Key(KIn), Brackets(items)))) == "(" + Render(x) + " IN (" + Render(items) + "))"
  {
    hide Render, Infix, Brackets;
    BracketsText(items);
    InfixText(x, KIn, Brackets(items));
    BracketsText(Infix(x, Key(KIn), Brackets(items)));
    InWords(Render(x), Render(items));
  }

  lemma InWords(x: string, items: string)
    ensures "(" + (x + (" " + Spelling(KIn) + " ") + ("(" + items + ")")) + ")" == "(" + x + " IN (" + items + "))"
  {
    assert " " + Spelling(KIn) + " " == " IN " && " IN " + "(" == " IN (" && ")" + ")" == "))";
    Regroup(x + " IN ", "(" + items, ")");
    Regroup(x + " IN ", "(", items);
    Regroup(x, " IN ", "(");
    Regroup("(", x + " IN (" + items, ")");
    Regroup("(", x + " IN (", items);
    Regroup("(", x, " IN (");
    Regroup("(" + x + " IN (" + items, ")", ")");
  }

  lemma LowerWords(x: string)
    ensures ("LOWER" + "(") + ("CAST(" + x + " AS STRING)") + ")" == "LOWER(CAST(" + x + " AS STRING))"
    ensures "(" + ("LOWER(CAST(" + x + " AS STRING))") + " IN (" == "(LOWER(CAST(" + x + " AS STRING)) IN ("
  {
    assert "LOWER" + "(" + "CAST(" == "LOWER(CAST(" && " AS STRING)" + ")" == " AS STRING))";
    assert "(" + "LOWER(CAST(" == "(LOWER(CAST(" && " AS STRING))" + " IN (" == " AS STRING)) IN (";
  }

  lemma LoweredPrint(vs: seq<Value>, lower: Value -> string)
    ensures var texts := seq(|vs|, i requires 0 <= i < |vs| => StringText(lower(vs[i])));
            Render(Itemized(Lowered(vs, lower))) == Join(texts, ", ")
  {
    hide Render, Itemized, Join, Backslashed, DoubleQuotes;
    var names := seq(|vs|, i requires 0 <= i < |vs| => lower(vs[i]));
    StringsPrint(names);
    assert Lowered(vs, lower) == seq(|names|, i requires 0 <= i < |names| => Str(Backslashed(names[i])));
    assert seq(|vs|, i requires 0 <= i < |vs| => StringText(lower(vs[i])))
        == seq(|names|, i requires 0 <= i < |names| => StringText(names[i]));
  }

  /** `_sql_in_list` */
  lemma ListPrints(col: Lexemes, values: Value, caseSensitive: bool, lower: Value -> string)
    ensures var sql := InList(col, values, caseSensitive, lower);
            var text := ListText(Render(col), values, caseSensitive, lower);
            sql.Some? == text.Some? && (sql.Some? ==> Render(sql.value) == text.value)
  {
    hide Render, Brackets, Infix, Call, Itemized, Lowered, Join, StringColumn, Scalars, ScalarTexts, StringText;
    if values.List? && values.items != [] {
      ScalarsPrint(values.items);
      if Scalars(values.items).Some? {
        var x := StringColumn(col, false);
        InTestShows(col, Itemized(Scalars(values.items).value));
        LoweredPrint(values.items, lower);
        CastPrints(col, false);
        L.CallOneText("LOWER", x);
        InTestShows(Call("LOWER", x), Itemized(Lowered(values.items, lower)));
        LowerWords(Render(col));
      }
    }
  }

  lemma NegationPrints(ls: Lexemes)
    ensures Render(Negated(ls)) == "(NOT " + Render(ls) + ")"
  {
    hide Render, Brackets, Sp;
    RenderOne(Key(KNot));
    SpText([Key(KNot)], ls);
    BracketsText(Sp([Key(KNot)], ls));
    Regroup("(", "NOT" + " ", Render(ls));
    assert "(" + ("NOT" + " ") == "(NOT ";
  }

  /** `is_in_list`, `is_not_in_list` and `is_not_null_and_is_in_list` */
  lemma ListChecksPrint(column: Value, values: Value, caseSensitive: bool, lower: Value -> string)
    requires ColumnSql(column).Some?
    ensures var col := Render(ColumnSql(column).value);
            var isIn, notIn := IsInList(column, values, caseSensitive, lower),
                               IsNotInList(column, values, caseSensitive, lower);
            var present := NotNullAndInList(column, values, caseSensitive, lower);
            var text := ListText(col, values, caseSensitive, lower);
            && isIn.Some? == notIn.Some? == present.Some? == text.Some?
            && (isIn.Some? ==>
                  && Render(isIn.value) == text.value
                  && Render(notIn.value) == "(NOT " + text.value + ")"
                  && Render(present.value) == "(" + col + " IS NOT NULL AND " + text.value + ")")
  {
    hide Render, Brackets, And, InList, ListText, ColumnSql, Negated, IsNotNullSql, Or, IsNullSql;
    var col := ColumnSql(column).value;
    ListPrints(col, values, caseSensitive, lower);
    if InList(col, values, caseSensitive, lower).Some? {
      NegationPrints(InList(col, values, caseSensitive, lower).value);
      NullJoins(col, false, InList(col, values, caseSensitive, lower).value);
    }
  }

  // ----- tolerance -----

  lemma DistanceShows(col: Lexemes, val: Lexemes)
    ensures Render(Distance(col, val)) == "ABS(" + Render(col) + " - " + Render(val) + ")"
  {
    hide Render, Call, Infix;
    L.WordInfixText(col, "-", val);
    L.CallOneText("ABS", Infix(col, Word("-"), val));
    assert "ABS" + "(" == "ABS(" && " " + "-" + " " == " - ";
    Regroup("ABS(", Render(col) + " - ", Render(val));
    Regroup("ABS(", Render(col), " - ");
  }

  lemma ShareShows(col: Lexemes, val: Lexemes, rel: Tolerance)
    ensures Render(RelativeBound(col, val, rel))
            == rel.text + " * GREATEST(ABS(" + Render(col) + "), ABS(" + Render(val) + "))"
  {
    hide Render, Call, Infix, Comma;
    RenderOne(Word(rel.text));
    L.CallOneText("ABS", col);
    L.CallOneText("ABS", val);
    L.CallTwoText("GREATEST", Call("ABS", col), Call("ABS", val));
    L.WordInfixText([Word(rel.text)], "*", Call("GREATEST", Comma(Call("ABS", col), Call("ABS", val))));
    GreatestWords(rel.text, Render(col), Render(val));
  }

  lemma GreatestWords(text: string, x: string, v: string)
    ensures text + (" " + "*" + " ")
            + (("GREATEST" + "(") + (("ABS" + "(") + x + ")") + ", " + (("ABS" + "(") + v + ")") + ")")
            == text + " * GREATEST(ABS(" + x + "), ABS(" + v + "))"
  {
    assert " " + "*" + " " == " * " && "GREATEST" + "(" == "GREATEST(" && "ABS" + "(" == "ABS(" && ")" + ")" == "))";
    var first, second := "ABS(" + x, "ABS(" + v;
    assert " * " + ("GREATEST(" + "ABS(") == " * GREATEST(ABS(";
    assert ")" + ", " + "ABS(" == "), ABS(";
    assert ("GREATEST(" + (first + ")") + ", " + (second + ")") + ")") ==
           ("GREATEST(" + "ABS(") + x + "), ABS(" + v + "))";
    assert text + " * " + (("GREATEST(" + "ABS(") + x + "), ABS(" + v + "))") ==
           text + (" * " + ("GREATEST(" + "ABS(")) + x + "), ABS(" + v + "))";
  }

  lemma TolerancePartsShow(col: Lexemes, val: Lexemes, abs: Tolerance, rel: Tolerance)
    ensures Render(Test(Distance(col, val), Le, [Word(abs.text)])) == AbsoluteText(Render(col), Render(val), abs)
    ensures Render(Test(Distance(col, val), Le, RelativeBound(col, val, rel)))
            == RelativeText(Render(col), Render(val), rel)
  {
    hide Render, Infix, Distance, RelativeBound, Symbol;
    var x, v := Render(col), Render(val);
    RenderOne(Word(abs.text));
    DistanceShows(col, val);
    ShareShows(col, val, rel);
    L.Symbols();
    L.CompareShown(Distance(col, val), Le, [Word(abs.text)]);
    L.CompareShown(Distance(col, val), Le, RelativeBound(col, val, rel));
    assert ")" + " <= " == ") <= ";
    Regroup("ABS(" + x + " - " + v, ")", " <= ");
    RelativeWords("ABS(" + x + " - " + v + ") <= ", rel.text, x, v);
  }

  lemma RelativeWords(head: string, text: string, x: string, v: string)
    ensures head + (text + " * GREATEST(ABS(" + x + "), ABS(" + v + "))")
            == head + text + " * GREATEST(ABS(" + x + "), ABS(" + v + "))"
  {
    Regroup(head, text + " * GREATEST(ABS(" + x + "), ABS(" + v, "))");
    Regroup(head, text + " * GREATEST(ABS(" + x + "), ABS(", v);
    Regroup(head, text + " * GREATEST(ABS(" + x, "), ABS(");
    Regroup(head, text + " * GREATEST(ABS(", x);
    Regroup(head, text, " * GREATEST(ABS(");
  }

  /** `_tolerance_pass` */
  lemma TolerancePrints(col: Lexemes, val: Lexemes, abs: Tolerance, rel: Tolerance)
    ensures Render(TolerancePass(col, val, abs, rel)) == ToleranceText(Render(col), Render(val), abs, rel)
  {
    hide Render, Infix, Brackets, Distance, RelativeBound, AbsoluteText, RelativeText, Symbol, Spelling;
    var near, share := Test(Distance(col, val), Le, [Word(abs.text)]),
                       Test(Distance(col, val), Le, RelativeBound(col, val, rel));
    TolerancePartsShow(col, val, abs, rel);
    BracketsText(near);
    BracketsText(share);
    BracketsText(Or(Brackets(near), Brackets(share)));
    BracketsText(Test(col, Eq, val));
    Joiners();
    InfixText(Brackets(near), KOr, Brackets(share));
    L.CompareShown(col, Eq, val);
    L.Symbols();
    EqualWords(Render(col), Render(val));
    EitherWords(AbsoluteText(Render(col), Render(val), abs), RelativeText(Render(col), Render(val), rel));
  }

  lemma EqualWords(x: string, v: string)
    ensures "(" + (x + " = " + v) + ")" == "(" + x + " = " + v + ")"
  {
    Regroup("(", x + " = ", v);
    Regroup("(", x, " = ");
  }

  lemma EitherWords(a: string, b: string)
    ensures "(" + (("(" + a + ")") + " OR " + ("(" + b + ")")) + ")" == "((" + a + ") OR (" + b + "))"
  {
    assert "(" + "(" == "((" && ")" + " OR " + "(" == ") OR (" && ")" + ")" == "))";
  }

  /** `is_equal_to` and `is_not_equal_to` */
  lemma EqualChecksPrint(column: Value, value: Value, abs: Tolerance, rel: Tolerance)
    requires ColumnSql(column).Some?
    ensures var col := Render(ColumnSql(column).value);
            var equal, notEqual := IsEqualTo(column, value, abs, rel), IsNotEqualTo(column, value, abs, rel);
            && equal.Some? == notEqual.Some? == (!value.Null? && ScalarText(value).Some?)
            && (equal.Some? ==>
                  var text := ToleranceText(col, ScalarText(value).value, abs, rel);
                  Render(equal.value) == text && Render(notEqual.value) == "(NOT " + text + ")")
  {
    hide Render, TolerancePass, ToleranceText, ColumnSql, Negated, Scalar, ScalarText;
    ScalarPrints(value);
    if IsEqualTo(column, value, abs, rel).Some? {
      TolerancePrints(ColumnSql(column).value, [Scalar(value).value], abs, rel);
      NegationPrints(IsEqualTo(column, value, abs, rel).value);
    }
  }

  // ----- null checks by their column -----

  /** `is_null`, `is_empty`, `is_null_or_empty` and their opposites */
  lemma NullChecksPrint(column: Value, trim: bool, expected: bool)
    requires ColumnSql(column).Some?
    ensures var col := Render(ColumnSql(column).value);
            && Render(IsNullCheck(column, expected).value) == NullText(col, expected)
            && Render(EmptyCheck(column, trim, expected).value) == EmptyText(col, trim, expected)
            && Render(NullOrEmpty(column, trim).value) == NullOrEmptyText(col, trim)
            && Render(NotNullAndNotEmpty(column, trim).value) == NotNullAndNotEmptyText(col, trim)
  {
    hide Render, Brackets, Test, Or, And, StringColumn, NullTest, ColumnSql, IsNullSql, IsNotNullSql,
         NullText, EmptyText, NullOrEmptyText, NotNullAndNotEmptyText;
    var col := ColumnSql(column).value;
    NullPrints(col, expected);
    EmptyPrints(col, trim, expected);
    NullOrEmptyPrints(col, trim);
  }
}
