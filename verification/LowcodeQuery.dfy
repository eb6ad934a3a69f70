/**
 The whole body as text: SELECT, the merge keys, one negated condition, FROM, and the joins
 and groups that follow. Every part is written out here as a plain string.
 */
module LowcodeQuery {
  import opened Text
  import opened SqlReader
  import opened LowcodeRows
  import opened LowcodeStack
  import opened LowcodeBody
  import opened LowcodeText
  import CommaSplit
  import SqlText

  // ----- joins -----

  /** The verbs of the join types; any other type is an inner join. */
  const JOIN_VERBS: map<JoinType, string> := map[
    Inner := "INNER JOIN", LeftJoin := "LEFT JOIN", RightJoin := "RIGHT JOIN", Full := "FULL OUTER JOIN",
    LeftSemi := "LEFT SEMI JOIN", LeftAnti := "LEFT ANTI JOIN", Cross := "CROSS JOIN"]

  /** The texts, unless one of them raises. */
  function All(texts: seq<Option<string>>): Option<seq<string>> {
    if texts == [] then Some([])
    else
      var first :- texts[0];
      var rest :- All(texts[1..]);
      Some([first] + rest)
  }

  lemma AllCons(first: Option<string>, rest: seq<Option<string>>)
    ensures All([first] + rest) ==
            if first.None? || All(rest).None? then None else Some([first.value] + All(rest).value)
  {
    assert ([first] + rest)[1..] == rest;
  }

  lemma NothingMore<T>(rest: seq<T>)
    ensures [] + rest == rest
  {
  }

  /** `target.joined = own`: the joined side under its quoted table, the own side under the view. */
  function KeySql(target: string, k: JoinKey): Option<string> {
    var table :- PathSql(target);
    var joined :- PathSql(k.joinedColumn);
    var own :- ColumnSql(k.columnRef, true);
    Some(table + "." + joined + " = " + own)
  }

  /** The conditions of the keys that name a column on both sides. */
  function KeySqls(target: string, keys: seq<JoinKey>): seq<Option<string>> {
    if keys == [] then []
    else
      (if keys[0].joinedColumn != "" && keys[0].columnRef != "" then [KeySql(target, keys[0])] else [])
      + KeySqls(target, keys[1..])
  }

  /** One join: its verb, its quoted target and, unless it is a cross join, ON and its conditions. */
  function JoinSql(j: TableJoin): Option<string> {
    var table :- PathSql(j.target);
    var verb := if j.joinType in JOIN_VERBS then JOIN_VERBS[j.joinType] else "INNER JOIN";
    if j.joinType.Cross? then Some(verb + " " + table)
    else
      var conds :- All(KeySqls(j.target, j.keys));
      Some(verb + " " + table + " ON " + Join(conds, " AND "))
  }

  /** The joins with a target, and with keys unless they are cross joins. */
  function JoinSqls(joins: seq<TableJoin>): seq<Option<string>> {
    if joins == [] then []
    else
      (if joins[0].target != "" && (joins[0].joinType.Cross? || joins[0].keys != []) then [JoinSql(joins[0])] else [])
      + JoinSqls(joins[1..])
  }

  /** `compile_joins_to_sql` */
  function JoinsText(joins: seq<TableJoin>): Option<string> {
    var texts :- All(JoinSqls(joins));
    Some(Join(texts, " "))
  }

  lemma PathTextIs(path: string)
    ensures PathText(path) == PathSql(path)
  {
    hide SqlText.Render;
    PathPrints(path);
  }

  lemma RefTextIs(column: string, q: bool)
    ensures RefText(column, q) == ColumnSql(column, q)
  {
    hide SqlText.Render;
    ColumnPrints(column, q);
  }

  lemma {:induction false} ConditionsPrint(target: string, keys: seq<JoinKey>)
    requires PathSql(target).Some?
    ensures OnConditions(PathSql(target).value, keys) == All(KeySqls(target, keys))
  {
    hide PathSql, ColumnSql, PathText, RefText, All;
    if keys == [] {
      NoneMissing();
    } else {
      ConditionsPrint(target, keys[1..]);
      PathTextIs(keys[0].joinedColumn);
      RefTextIs(keys[0].columnRef, true);
      NothingMore(KeySqls(target, keys[1..]));
      AllCons(KeySql(target, keys[0]), KeySqls(target, keys[1..]));
    }
  }

  lemma NoneMissing()
    ensures All([]) == Some([])
  {
  }

  lemma JoinPrints(j: TableJoin)
    ensures JoinText(j) == JoinSql(j)
  {
    hide PathSql, PathText, OnConditions, KeySqls, All, Join;
    PathTextIs(j.target);
    if PathSql(j.target).Some? {
      ConditionsPrint(j.target, j.keys);
    }
  }

  lemma {:induction false} EachJoinPrints(joins: seq<TableJoin>)
    ensures JoinTexts(joins) == All(JoinSqls(joins))
  {
    hide JoinText, JoinSql, All;
    if joins == [] {
      NoneMissing();
    } else {
      EachJoinPrints(joins[1..]);
      JoinPrints(joins[0]);
      NothingMore(JoinSqls(joins[1..]));
      AllCons(JoinSql(joins[0]), JoinSqls(joins[1..]));
    }
  }

  /** Every list of joins has this text, and raises alike. */
  lemma JoinsPrint(joins: seq<TableJoin>)
    ensures JoinsSql(joins) == JoinsText(joins)
  {
    hide JoinTexts, JoinSqls, All, Join;
    EachJoinPrints(joins);
  }

  // ----- merge keys -----

  /** Some key of a join that has a target and is no cross join names this bare column. */
  predicate Names(joins: seq<TableJoin>, t: string) {
    exists j <- joins, k <- j.keys ::
      !j.joinType.Cross? && j.target != "" && k.columnRef != "" && ColumnSql(k.columnRef, false) == Some(t)
  }

  lemma {:induction false} KeyTokensAre(keys: seq<JoinKey>, t: string)
    requires KeyTokens(keys).Some?
    ensures t in KeyTokens(keys).value
            <==> exists k <- keys :: k.columnRef != "" && ColumnSql(k.columnRef, false) == Some(t)
  {
    hide ColumnSql, RefText;
    if keys != [] {
      RefTextIs(keys[0].columnRef, false);
      KeyTokensAre(keys[1..], t);
      assert forall k :: k in keys <==> k == keys[0] || k in keys[1..];
    }
  }

  lemma {:induction false} JoinTokensAre(joins: seq<TableJoin>, t: string)
    requires JoinTokens(joins).Some?
    ensures t in JoinTokens(joins).value <==> Names(joins, t)
  {
    hide ColumnSql, KeyTokens;
    if joins != [] {
      JoinTokensAre(joins[1..], t);
      if !joins[0].joinType.Cross? && joins[0].target != "" {
        KeyTokensAre(joins[0].keys, t);
      }
      assert forall j :: j in joins <==> j == joins[0] || j in joins[1..];
    }
  }

  lemma {:induction false} KeyTokensRaise(keys: seq<JoinKey>)
    ensures KeyTokens(keys).Some?
            <==> forall k <- keys :: k.columnRef != "" ==> ColumnSql(k.columnRef, false).Some?
  {
    hide ColumnSql, RefText;
    if keys != [] {
      RefTextIs(keys[0].columnRef, false);
      KeyTokensRaise(keys[1..]);
      assert forall k :: k in keys <==> k == keys[0] || k in keys[1..];
    }
  }

  /** They raise exactly when a named column is a bad path. */
  lemma {:induction false} JoinKeysRaiseIff(joins: seq<TableJoin>)
    ensures KeyRefs(joins).None?
            <==> exists j <- joins, k <- j.keys ::
                   !j.joinType.Cross? && j.target != "" && k.columnRef != "" && ColumnSql(k.columnRef, false).None?
  {
    hide ColumnSql, KeyTokens;
    if joins != [] {
      JoinKeysRaiseIff(joins[1..]);
      KeyTokensRaise(joins[0].keys);
      assert forall j :: j in joins <==> j == joins[0] || j in joins[1..];
    }
  }

  /** The join keys are the bare columns the joins' keys name, each once, none missing. */
  lemma JoinKeysAre(joins: seq<TableJoin>, t: string)
    requires KeyRefs(joins).Some?
    ensures var keys := KeyRefs(joins).value;
            && (forall i, j :: 0 <= i < j < |keys| ==> keys[i] != keys[j])
            && (t in keys <==> Names(joins, t))
  {
    hide Names;
    DistinctFacts([], JoinTokens(joins).value);
    JoinTokensAre(joins, t);
  }

  lemma {:induction false} KeyTokensAppend(a: seq<JoinKey>, b: seq<JoinKey>)
    requires KeyTokens(a + b).Some?
    ensures KeyTokens(a).Some? && KeyTokens(b).Some?
    ensures KeyTokens(a + b).value == KeyTokens(a).value + KeyTokens(b).value
  {
    hide RefText;
    if a == [] {
      assert a + b == b;
    } else {
      assert (a + b)[1..] == a[1..] + b;
      KeyTokensAppend(a[1..], b);
    }
  }

  lemma {:induction false} JoinTokensAppend(a: seq<TableJoin>, b: seq<TableJoin>)
    requires JoinTokens(a + b).Some?
    ensures JoinTokens(a).Some? && JoinTokens(b).Some?
    ensures JoinTokens(a + b).value == JoinTokens(a).value + JoinTokens(b).value
  {
    hide KeyTokens;
    if a == [] {
      assert a + b == b;
    } else {
      assert (a + b)[1..] == a[1..] + b;
      JoinTokensAppend(a[1..], b);
    }
  }

  /** They stand in the order of the joins, and of the keys within a join: more keys of the last
      join, and more joins after it, only add at the end. */
  lemma JoinKeysGrow(before: seq<TableJoin>, j: TableJoin, more: seq<JoinKey>, after: seq<TableJoin>)
    requires KeyRefs(before + [j.(keys := j.keys + more)] + after).Some?
    ensures KeyRefs(before + [j]).Some?
    ensures KeyRefs(before + [j]).value <= KeyRefs(before + [j.(keys := j.keys + more)] + after).value
  {
    hide KeyTokens, Distinct;
    var long := j.(keys := j.keys + more);
    JoinTokensAppend(before + [long], after);
    JoinTokensAppend(before, [long]);
    OneJoinGrows(j, more);
    var early, late := JoinTokens(before + [j]), JoinTokens(before + [long] + after).value;
    BeforeAnd(before, j);
    assert early.value <= late;
    DistinctGrows(early.value, late[|early.value|..]);
    assert early.value + late[|early.value|..] == late;
  }

  lemma OneJoinGrows(j: TableJoin, more: seq<JoinKey>)
    requires JoinTokens([j.(keys := j.keys + more)]).Some?
    ensures JoinTokens([j]).Some? && JoinTokens([j]).value <= JoinTokens([j.(keys := j.keys + more)]).value
  {
    hide KeyTokens;
    if !j.joinType.Cross? && j.target != "" {
      KeyTokensAppend(j.keys, more);
    }
  }

  lemma {:induction false} BeforeAnd(before: seq<TableJoin>, j: TableJoin)
    requires JoinTokens(before).Some? && JoinTokens([j]).Some?
    ensures JoinTokens(before + [j]).Some?
    ensures JoinTokens(before + [j]).value == JoinTokens(before).value + JoinTokens([j]).value
  {
    hide KeyTokens;
    if before == [] {
      assert before + [j] == [j];
    } else {
      assert (before + [j])[1..] == before[1..] + [j];
      BeforeAnd(before[1..], j);
    }
  }

  lemma DistinctGrows(a: seq<string>, b: seq<string>)
    ensures Distinct([], a) <= Distinct([], a + b)
  {
    DistinctAppend([], a, b);
    DistinctFacts([], a);
    DistinctFacts(Distinct([], a), b);
  }

  // ----- the SELECT list -----

  /** A single plain placeholder is taken from the view and put out under its own name. */
  lemma PlaceholderProjects(name: string)
    requires '.' !in name
    ensures Projection("{{" + name + "}}") == "{{input_view}}.{{" + name + "}} AS {{" + name + "}}"
  {
    var key := "{{" + name + "}}";
    assert key[..2] == "{{" && key[|key| - 2..] == "}}";
    assert Middle(key) == name;
    assert "{{input_view}}." + key + " AS " + key == "{{input_view}}.{{" + name + "}} AS {{" + name + "}}";
  }

  /** Every other key is put out as it is. */
  lemma OthersProject(key: string)
    requires forall name :: key == "{{" + name + "}}" ==> '.' in name
    ensures Projection(key) == key
  {
    if "{{" <= key && key[|key| - 2..] == "}}" {
      assert |key| >= 4 by {
        assert key[0] == key[1] == '{' && key[|key| - 2] == '}';
      }
      assert key == "{{" + Middle(key) + "}}";
    }
  }

  lemma {:induction false} ProjectionsShow(keys: seq<string>)
    ensures |Projections(keys)| == |keys|
    ensures forall i :: 0 <= i < |keys| ==> Projections(keys)[i] == Projection(keys[i])
  {
    if keys != [] {
      hide Projection;
      ProjectionsShow(keys[1..]);
    }
  }

  // ----- the body -----

  /** Some join has a target, and keys unless it is a cross join. */
  predicate Joined(joins: seq<TableJoin>) {
    exists j <- joins :: j.target != "" && (j.joinType.Cross? || j.keys != [])
  }

  lemma JoinedIff(joins: seq<TableJoin>)
    requires JoinsSql(joins).Some?
    ensures JoinsSql(joins).value != "" <==> Joined(joins)
  {
    HasJoinsIff(joins);
  }

  lemma JoinSnoc(items: seq<string>, last: string)
    ensures Join(items + [last], ", ") == if items == [] then last else Join(items, ", ") + ", " + last
  {
    if items == [] {
      assert items + [last] == [last];
    } else if |items| == 1 {
      assert (items + [last])[1..] == [last];
    } else {
      assert (items + [last])[1..] == items[1..] + [last];
      JoinSnoc(items[1..], last);
      Regroup(items[0] + ", ", Join(items[1..], ", "), ", " + last);
      Regroup(Join(items[1..], ", "), ", ", last);
      Regroup(items[0] + ", " + Join(items[1..], ", "), ", ", last);
    }
  }

  /** The merge columns: the groups, else the join keys; none raises nothing. */
  function MergeKeys(joins: seq<TableJoin>, groups: seq<string>): Option<seq<string>> {
    if groups != [] then Some(groups) else if Joined(joins) then KeyRefs(joins) else Some([])
  }

  /** SELECT, the merge columns, one condition that is the predicate's negation, FROM the view and the joins. */
  function QuerySql(items: seq<string>, pred: string, joinsText: string, groups: seq<string>): string {
    "SELECT " + Join(items + ["(" + ("NOT (" + pred + ")") + ") AS condition"], ", ")
    + " FROM " + (if joinsText == "" then "{{input_view}}" else "{{input_view}} " + joinsText)
    + (if groups == [] then "" else " GROUP BY " + Join(groups, ", "))
  }

  /** A merge column as it stands in the SELECT list. */
  function Items(keys: seq<string>, joined: bool): seq<string> {
    seq(|keys|, i requires 0 <= i < |keys| => if joined then Projection(keys[i]) else keys[i])
  }

  /** `compile_lowcode_body` */
  function BodySql(rows: seq<Row>, joins: seq<TableJoin>, groupBy: string): Option<Body> {
    var groups := CommaSplit.Split(groupBy);
    var joinsText :- JoinsText(joins);
    var pred :- StackText(rows, Joined(joins));
    var keys :- MergeKeys(joins, groups);
    if !Joined(joins) && groups == [] then Some(Body(Some(pred), None, None))
    else
      Some(Body(None, Some(QuerySql(Items(keys, Joined(joins)), pred, joinsText, groups)),
                if keys == [] then None else Some(keys)))
  }

  lemma ItemsAre(keys: seq<string>, joined: bool)
    ensures SelectKeys(keys, joined) == Join(Items(keys, joined), ", ")
    ensures |Items(keys, joined)| == |keys|
  {
    ProjectionsShow(keys);
    assert Items(keys, joined) == if joined then Projections(keys) else keys;
  }

  lemma QueryPrints(keys: seq<string>, joined: bool, pred: string, joinsText: string)
    ensures "SELECT " + (if keys == [] then Condition(pred) else SelectKeys(keys, joined) + ", " + Condition(pred))
            + " FROM " + FromClause(joinsText)
            == QuerySql(Items(keys, joined), pred, joinsText, [])
  {
    hide SelectKeys, Items, Join;
    var last := "(" + ("NOT (" + pred + ")") + ") AS condition";
    ItemsAre(keys, joined);
    JoinSnoc(Items(keys, joined), last);
    ConditionShows(pred);
    FromShows(joinsText);
  }

  lemma GroupsFollow(items: seq<string>, pred: string, joinsText: string, groups: seq<string>)
    requires groups != []
    ensures QuerySql(items, pred, joinsText, groups)
            == QuerySql(items, pred, joinsText, []) + " GROUP BY " + Join(groups, ", ")
  {
    hide Join;
    var query := QuerySql(items, pred, joinsText, []);
    Regroup(query, " GROUP BY ", Join(groups, ", "));
  }

  lemma ConditionShows(pred: string)
    ensures Condition(pred) == "(" + ("NOT (" + pred + ")") + ") AS condition"
  {
  }

  lemma FromShows(joinsText: string)
    ensures FromClause(joinsText) == if joinsText == "" then "{{input_view}}" else "{{input_view}} " + joinsText
  {
    assert "{{input_view}}" + " " == "{{input_view}} ";
    Regroup("{{input_view}}", " ", joinsText);
  }

  /** Every body is this body, and it raises alike. */
  lemma BodyPrints(rows: seq<Row>, joins: seq<TableJoin>, groupBy: string)
    ensures CompileBody(rows, joins, groupBy) == BodySql(rows, joins, groupBy)
  {
    hide Stack, StackText, Join, JoinsSql, JoinsText, SelectKeys, Items, CommaSplit.Split, KeyRefs, Joined, Condition,
         FromClause, SqlText.Render;
    JoinsPrint(joins);
    if JoinsSql(joins).Some? {
      JoinedIff(joins);
      StackPrints(rows, Joined(joins));
      if BodySql(rows, joins, groupBy).Some? && (Joined(joins) || CommaSplit.Split(groupBy) != []) {
        var keys := MergeKeys(joins, CommaSplit.Split(groupBy)).value;
        var pred, groups := StackText(rows, Joined(joins)).value, CommaSplit.Split(groupBy);
        QueryPrints(keys, Joined(joins), pred, JoinsText(joins).value);
        if groups != [] {
          GroupsFollow(Items(keys, Joined(joins)), pred, JoinsText(joins).value, groups);
        }
      }
    }
  }

  /** Every query is SELECT, its items, one condition, FROM the view and the joins; and for legible
      rows the condition is read as the negation of the predicate's text. The condition is read as it
      was meant exactly when the stack is well formed. */
  lemma QueryNegates(rows: seq<Row>, joins: seq<TableJoin>, groupBy: string, env: Env)
    returns (items: seq<string>, condition: string, tail: string)
    requires CompileBody(rows, joins, groupBy).Some? && CompileBody(rows, joins, groupBy).value.sqlQuery.Some?
    requires StackOk(rows)
    ensures var joined, groups := Joined(joins), CommaSplit.Split(groupBy);
            && CompileBody(rows, joins, groupBy).value.sqlQuery ==
               Some("SELECT " + Join(items + ["(" + condition + ") AS condition"], ", ") + " FROM " + tail)
            && StackText(rows, joined).Some? && JoinsText(joins).Some?
            && (StackLegible(rows, joined) ==>
                  ReadText(condition, env) == NotR(ReadText(StackText(rows, joined).value, env)))
            && Stack(rows, joined).Some?
            && condition == SqlText.Render(FailCondition(Stack(rows, joined).value))
            && (ReadsAsMeant(FailCondition(Stack(rows, joined).value), env) <==> WellFormed(rows, joined))
            && tail == (if joined then "{{input_view}} " + JoinsText(joins).value else "{{input_view}}")
                       + (if groups == [] then "" else " GROUP BY " + Join(groups, ", "))
  {
    hide Stack, StackText, Join, JoinsText, JoinsSql, Items, Joined, CommaSplit.Split, KeyRefs, StackOk, StackLegible,
         ReadText, Condition, SqlText.Render, NotR, QuerySql, FailCondition, ReadsAsMeant, WellFormed;
    BodyPrints(rows, joins, groupBy);
    JoinsPrint(joins);
    JoinedIff(joins);
    var groups := CommaSplit.Split(groupBy);
    var pred, joinsText := StackText(rows, Joined(joins)).value, JoinsText(joins).value;
    items := Items(MergeKeys(joins, groups).value, Joined(joins));
    StackPrints(rows, Joined(joins));
    ConditionNegates(rows, Joined(joins), env);
    condition := "NOT (" + pred + ")";
    tail := (if Joined(joins) then "{{input_view}} " + joinsText else "{{input_view}}")
            + (if groups == [] then "" else " GROUP BY " + Join(groups, ", "));
    QueryParts(items, pred, joinsText, groups);
  }

  lemma QueryParts(items: seq<string>, pred: string, joinsText: string, groups: seq<string>)
    ensures var head := "SELECT " + Join(items + ["(" + ("NOT (" + pred + ")") + ") AS condition"], ", ") + " FROM ";
            QuerySql(items, pred, joinsText, groups) ==
            head + ((if joinsText == "" then "{{input_view}}" else "{{input_view}} " + joinsText)
                    + (if groups == [] then "" else " GROUP BY " + Join(groups, ", ")))
  {
    hide Join;
    Regroup("SELECT " + Join(items + ["(" + ("NOT (" + pred + ")") + ") AS condition"], ", ") + " FROM ",
            if joinsText == "" then "{{input_view}}" else "{{input_view}} " + joinsText,
            if groups == [] then "" else " GROUP BY " + Join(groups, ", "));
  }
}
