/**
 The body a low-code rule is stored as: joins, merge keys and group-by folded around the
 compiled predicate. The GROUP BY text splits back into the merge columns, the SELECT list
 puts out the merge columns in order, and the condition is the predicate's negation.
 */
module LowcodeBody {
  import opened Text
  import opened SqlText
  import opened SqlReader
  import opened LowcodeRows
  import opened LowcodeLegible
  import opened LowcodeMeaning
  import opened LowcodeStack
  import CommaSplit

  datatype JoinType = Inner | LeftJoin | RightJoin | Full | LeftSemi | LeftAnti | Cross | OtherType

  /** Either name is "" when it is missing. */
  datatype JoinKey = JoinKey(joinedColumn: string, columnRef: string)

  datatype TableJoin = TableJoin(joinType: JoinType, target: string, keys: seq<JoinKey>)

  datatype Body = Body(passes: Option<string>, sqlQuery: Option<string>, mergeColumns: Option<seq<string>>)

  // ----- the FROM clause -----

  function JoinWords(t: JoinType): string {
    match t
    case Inner => "INNER JOIN"
    case LeftJoin => "LEFT JOIN"
    case RightJoin => "RIGHT JOIN"
    case Full => "FULL OUTER JOIN"
    case LeftSemi => "LEFT SEMI JOIN"
    case LeftAnti => "LEFT ANTI JOIN"
    case Cross => "CROSS JOIN"
    case OtherType => "INNER JOIN"
  }

  /** The joins that are not skipped. */
  predicate Usable(j: TableJoin) {
    j.target != "" && (j.joinType.Cross? || j.keys != [])
  }

  function RefText(column: string, qualify: bool): Option<string> {
    var ls :- Ref(column, qualify);
    Some(Render(ls))
  }

  function PathText(path: string): Option<string> {
    var ls :- QuotePath(path);
    Some(Render(ls))
  }

  predicate Complete(k: JoinKey) {
    k.joinedColumn != "" && k.columnRef != ""
  }

  function OnConditions(target: string, keys: seq<JoinKey>): Option<seq<string>> {
    if keys == [] then Some([])
    else if !Complete(keys[0]) then OnConditions(target, keys[1..])
    else
      var joined :- PathText(keys[0].joinedColumn);
      var own :- RefText(keys[0].columnRef, true);
      var rest :- OnConditions(target, keys[1..]);
      Some([target + "." + joined + " = " + own] + rest)
  }

  /** The text of one join; None is the ValueError. */
  function JoinText(j: TableJoin): Option<string> {
    var target :- PathText(j.target);
    var head := JoinWords(j.joinType) + " " + target;
    if j.joinType.Cross? then Some(head)
    else
      var conds :- OnConditions(target, j.keys);
      Some(head + " ON " + Join(conds, " AND "))
  }

  function JoinTexts(joins: seq<TableJoin>): Option<seq<string>> {
    if joins == [] then Some([])
    else if !Usable(joins[0]) then JoinTexts(joins[1..])
    else
      var first :- JoinText(joins[0]);
      var rest :- JoinTexts(joins[1..]);
      Some([first] + rest)
  }

  function JoinsSql(joins: seq<TableJoin>): Option<string> {
    var texts :- JoinTexts(joins);
    Some(Join(texts, " "))
  }

  lemma {:induction false} JoinTextsNotEmpty(joins: seq<TableJoin>)
    requires JoinTexts(joins).Some?
    ensures JoinTexts(joins).value != [] <==> exists j <- joins :: Usable(j)
    ensures forall t <- JoinTexts(joins).value :: t != ""
  {
    if joins != [] {
      JoinTextsNotEmpty(joins[1..]);
      assert forall j :: j in joins <==> j == joins[0] || j in joins[1..];
    }
  }

  /** The query is a join, and its predicate qualified, exactly when some join is not skipped. */
  lemma HasJoinsIff(joins: seq<TableJoin>)
    requires JoinsSql(joins).Some?
    ensures JoinsSql(joins).value != "" <==> exists j <- joins :: Usable(j)
  {
    JoinTextsNotEmpty(joins);
    var texts := JoinTexts(joins).value;
    if texts != [] {
      assert texts[0] in texts;
    }
  }

  lemma TextsSnoc(done: seq<string>, t: string, rest: seq<string>)
    ensures done + ([t] + rest) == (done + [t]) + rest
  {
  }

  /** `compile_joins_to_sql` */
  method CompileJoinsToSql(joins: seq<TableJoin>) returns (sql: Option<string>)
    ensures sql == JoinsSql(joins)
  {
    var out: seq<string> := [];
    assert joins[0..] == joins;
    assert JoinTexts(joins).Some? ==> out + JoinTexts(joins).value == JoinTexts(joins).value;
    for i := 0 to |joins|
      invariant JoinTexts(joins) == match JoinTexts(joins[i..])
                                    case None => None
                                    case Some(rest) => Some(out + rest)
    {
      assert joins[i..][1..] == joins[i + 1..];
      if !Usable(joins[i]) {
        continue;
      }
      var text := JoinText(joins[i]);
      if text.None? {
        return None;
      }
      if JoinTexts(joins[i + 1..]).Some? {
        TextsSnoc(out, text.value, JoinTexts(joins[i + 1..]).value);
      }
      out := out + [text.value];
    }
    assert joins[|joins|..] == [] && out + [] == out;
    return Some(Join(out, " "));
  }

  // ----- what an ON clause means -----

  /** `target.joined`, as lexemes. */
  function JoinedColumn(target: string, column: string): Lexemes {
    QuoteParts(SplitOn(target, '.') + SplitOn(column, '.'))
  }

  /** One key's columns are equal. */
  function KeyEqual(target: string, k: JoinKey, env: Env): Truth
    requires Ref(k.columnRef, true).Some?
  {
    Compare(Eq, Val(JoinedColumn(target, k.joinedColumn), env), Val(Ref(k.columnRef, true).value, env))
  }

  /** The complete keys' columns are pairwise equal. */
  function KeysEqual(target: string, keys: seq<JoinKey>, env: Env): Truth {
    if keys == [] then True
    else if !Complete(keys[0]) || Ref(keys[0].columnRef, true).None? then KeysEqual(target, keys[1..], env)
    else
      And3(KeyEqual(target, keys[0], env), KeysEqual(target, keys[1..], env))
  }

  lemma {:induction false} QuotePartsAppend(a: seq<string>, b: seq<string>)
    requires a != [] && b != []
    ensures QuoteParts(a + b) == QuoteParts(a) + [Word(".")] + QuoteParts(b)
  {
    assert (a + b)[1..] == a[1..] + b;
    if |a| == 1 {
      assert a + b == [a[0]] + b;
    } else {
      QuotePartsAppend(a[1..], b);
    }
  }

  lemma JoinedColumnText(target: string, column: string)
    requires QuotePath(target).Some? && QuotePath(column).Some?
    ensures Piece(JoinedColumn(target, column))
    ensures Render(JoinedColumn(target, column)) == PathText(target).value + "." + PathText(column).value
  {
    var a, b := SplitOn(target, '.'), SplitOn(column, '.');
    QuotePartsAppend(a, b);
    QuotePartsPiece(a + b);
    RenderAppend(QuoteParts(a) + [Word(".")], QuoteParts(b));
    RenderAppend(QuoteParts(a), [Word(".")]);
    RenderOne(Word("."));
  }

  lemma EqualsText()
    ensures " " + Spelling(KCmp(Eq)) + " " == " = "
  {
  }

  /** One complete key. */
  lemma KeyReads(target: string, k: JoinKey, env: Env) returns (ls: Lexemes)
    requires Complete(k)
    requires QuotePath(target).Some? && QuotePath(k.joinedColumn).Some? && Ref(k.columnRef, true).Some?
    ensures Render(ls) ==
            PathText(target).value + "." + PathText(k.joinedColumn).value + " = " + RefText(k.columnRef, true).value
    ensures Reads(ls, KeyEqual(target, k, env), env) && (AllLegible(ls) <==> ColumnLegible(k.columnRef))
  {
    hide AllLegible, Piece, Reads, QuotePath, Ref, Val, Render, JoinedColumn, Spelling;
    var a, b := JoinedColumn(target, k.joinedColumn), Ref(k.columnRef, true).value;
    JoinedColumnText(target, k.joinedColumn);
    RefPiece(k.columnRef, true);
    ComparisonReads(a, Eq, b, env);
    InfixText(a, KCmp(Eq), b);
    EqualsText();
    KeyIsLegibleIff(target, k);
    ls := Infix(a, Key(KCmp(Eq)), b);
  }

  lemma KeyIsLegibleIff(target: string, k: JoinKey)
    requires Ref(k.columnRef, true).Some?
    ensures AllLegible(Infix(JoinedColumn(target, k.joinedColumn), Key(KCmp(Eq)), Ref(k.columnRef, true).value))
            <==> ColumnLegible(k.columnRef)
  {
    hide AllLegible, ColumnLegible;
    QuotePartsLegible(SplitOn(target, '.') + SplitOn(k.joinedColumn, '.'));
    RefIsLegibleIff(k.columnRef, true);
    LegibleInfix(JoinedColumn(target, k.joinedColumn), Key(KCmp(Eq)), Ref(k.columnRef, true).value);
  }

  lemma BothRead(a: Lexemes, m: Truth, b: Lexemes, n: Truth, env: Env)
    requires Reads(a, m, env) && Reads(b, n, env)
    ensures Reads(Infix(a, Key(KAnd), b), And3(m, n), env)
  {
    ConjunctionReads(a, m, b, n, env);
  }

  /** `ls` spells the conditions, and reads as all of them. */
  predicate OnSpelled(ls: Lexemes, conds: seq<string>, m: Truth, env: Env) {
    if conds == [] then ls == [] && m == True
    else Render(ls) == Join(conds, " AND ") && Reads(ls, m, env)
  }

  lemma OnSpelledCons(first: Lexemes, cond: string, m: Truth, ls: Lexemes, conds: seq<string>, n: Truth, env: Env)
    returns (all: Lexemes)
    requires Render(first) == cond && Reads(first, m, env) && OnSpelled(ls, conds, n, env)
    ensures OnSpelled(all, [cond] + conds, And3(m, n), env)
    ensures AllLegible(all) <==> AllLegible(first) && AllLegible(ls)
  {
    hide Reads, Render, AllLegible;
    if conds == [] {
      all := first;
      NothingIsLegible();
    } else {
      BothRead(first, m, ls, n, env);
      InfixText(first, KAnd, ls);
      LegibleInfix(first, Key(KAnd), ls);
      all := Infix(first, Key(KAnd), ls);
      assert ([cond] + conds)[1..] == conds;
    }
  }

  lemma {:induction false} KeysRead(target: string, keys: seq<JoinKey>, env: Env) returns (ls: Lexemes)
    requires QuotePath(target).Some? && OnConditions(PathText(target).value, keys).Some?
    ensures var conds := OnConditions(PathText(target).value, keys).value;
            && (conds == [] <==> forall k <- keys :: !Complete(k))
            && OnSpelled(ls, conds, KeysEqual(target, keys, env), env)
            && (AllLegible(ls) <==> forall k <- keys :: Complete(k) ==> ColumnLegible(k.columnRef))
  {
    hide AllLegible, ColumnLegible, Reads, QuotePath, Ref, Val, Compare, OnSpelled, Render, JoinedColumn;
    if keys == [] {
      ls := NothingSpelled(env);
    } else {
      assert forall k :: k in keys <==> k == keys[0] || k in keys[1..];
      ls := KeysRead(target, keys[1..], env);
      if Complete(keys[0]) {
        var first := KeyReads(target, keys[0], env);
        var conds := OnConditions(PathText(target).value, keys).value;
        ls := OnSpelledCons(first, conds[0], KeyEqual(target, keys[0], env), ls, conds[1..],
                            KeysEqual(target, keys[1..], env), env);
      }
    }
  }

  lemma NothingSpelled(env: Env) returns (ls: Lexemes)
    ensures OnSpelled(ls, [], True, env) && AllLegible(ls)
  {
    ls := [];
  }

  /** The ON text of a usable join is lexed as it was meant exactly when the complete keys' own
      columns are legible, and is then read as: their columns are equal, joined side and own side,
      all of them. With no complete key nothing follows ON, and it has no reading. */
  lemma OnReads(j: TableJoin, env: Env) returns (ls: Lexemes)
    requires !j.joinType.Cross? && JoinText(j).Some?
    ensures var on := Join(OnConditions(PathText(j.target).value, j.keys).value, " AND ");
            var fine := forall k <- j.keys :: Complete(k) ==> ColumnLegible(k.columnRef);
            && JoinText(j).value == JoinWords(j.joinType) + " " + PathText(j.target).value + " ON " + on
            && Render(ls) == on && (Lex(on) == ls <==> fine)
            && (fine ==>
                  ReadText(on, env) ==
                  if exists k <- j.keys :: Complete(k) then Some(KeysEqual(j.target, j.keys, env)) else None)
  {
    hide AllLegible, ColumnLegible, Val;
    ls := KeysRead(j.target, j.keys, env);
    if OnConditions(PathText(j.target).value, j.keys).value != [] {
      LexRenderIff(ls);
      if AllLegible(ls) {
        ReadRendered(ls, env);
      }
    } else {
      NothingIsLegible();
      assert ReadOr([], env) == ReadAnd([], env) == ReadNot([], env) == None;
    }
  }

  // ----- merge keys -----

  /** The bare references of the keys that name a column. */
  function KeyTokens(keys: seq<JoinKey>): Option<seq<string>> {
    if keys == [] then Some([])
    else if keys[0].columnRef == "" then KeyTokens(keys[1..])
    else
      var token :- RefText(keys[0].columnRef, false);
      var rest :- KeyTokens(keys[1..]);
      Some([token] + rest)
  }

  function JoinTokens(joins: seq<TableJoin>): Option<seq<string>> {
    if joins == [] then Some([])
    else if joins[0].joinType.Cross? || joins[0].target == "" then JoinTokens(joins[1..])
    else
      var first :- KeyTokens(joins[0].keys);
      var rest :- JoinTokens(joins[1..]);
      Some(first + rest)
  }

  /** Appends the tokens not yet there. */
  function Distinct(seen: seq<string>, tokens: seq<string>): seq<string>
    decreases |tokens|
  {
    if tokens == [] then seen
    else Distinct(if tokens[0] in seen then seen else seen + [tokens[0]], tokens[1..])
  }

  function KeyRefs(joins: seq<TableJoin>): Option<seq<string>> {
    var tokens :- JoinTokens(joins);
    Some(Distinct([], tokens))
  }

  lemma {:induction false} DistinctAppend(seen: seq<string>, a: seq<string>, b: seq<string>)
    ensures Distinct(seen, a + b) == Distinct(Distinct(seen, a), b)
    decreases |a|
  {
    if a == [] {
      assert a + b == b;
    } else {
      assert (a + b)[1..] == a[1..] + b;
      DistinctAppend(if a[0] in seen then seen else seen + [a[0]], a[1..], b);
    }
  }

  /** The merge keys of the joins hold each token once, in order of first appearance. */
  lemma {:induction false} DistinctFacts(seen: seq<string>, tokens: seq<string>)
    requires forall i, j :: 0 <= i < j < |seen| ==> seen[i] != seen[j]
    ensures var r := Distinct(seen, tokens);
            && seen <= r
            && (forall i, j :: 0 <= i < j < |r| ==> r[i] != r[j])
            && (forall t :: t in r <==> t in seen || t in tokens)
    decreases |tokens|
  {
    if tokens != [] {
      DistinctFacts(if tokens[0] in seen then seen else seen + [tokens[0]], tokens[1..]);
      assert forall t :: t in tokens <==> t == tokens[0] || t in tokens[1..];
    }
  }

  /** The keys of one join. */
  method AddKeys(keys: seq<JoinKey>, seen0: set<string>, out0: seq<string>)
    returns (ok: bool, seen: set<string>, out: seq<string>)
    requires seen0 == set t | t in out0
    ensures ok == KeyTokens(keys).Some?
    ensures ok ==> out == Distinct(out0, KeyTokens(keys).value) && seen == set t | t in out
  {
    seen, out := seen0, out0;
    for i := 0 to |keys|
      invariant seen == set t | t in out
      invariant KeyTokens(keys).Some? == KeyTokens(keys[i..]).Some?
      invariant KeyTokens(keys).Some? ==>
                  Distinct(out0, KeyTokens(keys).value) == Distinct(out, KeyTokens(keys[i..]).value)
    {
      assert keys[i..][1..] == keys[i + 1..];
      if keys[i].columnRef == "" {
        continue;
      }
      var token := RefText(keys[i].columnRef, false);
      if token.None? {
        return false, seen, out;
      }
      if token.value in seen {
        continue;
      }
      seen := seen + {token.value};
      out := out + [token.value];
    }
    ok := true;
  }

  /** `_join_key_refs` */
  method JoinKeyRefs(joins: seq<TableJoin>) returns (r: Option<seq<string>>)
    ensures r == KeyRefs(joins)
  {
    var seen: set<string> := {};
    var out: seq<string> := [];
    for i := 0 to |joins|
      invariant seen == set t | t in out
      invariant JoinTokens(joins).Some? == JoinTokens(joins[i..]).Some?
      invariant JoinTokens(joins).Some? ==>
                  Distinct([], JoinTokens(joins).value) == Distinct(out, JoinTokens(joins[i..]).value)
    {
      assert joins[i..][1..] == joins[i + 1..];
      if joins[i].joinType.Cross? || joins[i].target == "" {
        continue;
      }
      if JoinTokens(joins[i..]).Some? {
        DistinctAppend(out, KeyTokens(joins[i].keys).value, JoinTokens(joins[i + 1..]).value);
      }
      var ok;
      ok, seen, out := AddKeys(joins[i].keys, seen, out);
      if !ok {
        return None;
      }
    }
    return Some(out);
  }

  // ----- the SELECT list -----

  /** `_select_key_projection` */
  function Projection(key: string): string {
    if "{{" <= key && key[|key| - 2..] == "}}" then
      if '.' !in Middle(key) then "{{input_view}}." + key + " AS " + key else key
    else key
  }

  /** Python's `key[2:-2]` */
  function Middle(key: string): string {
    if |key| <= 4 then "" else key[2..|key| - 2]
  }

  function Projections(keys: seq<string>): seq<string> {
    if keys == [] then [] else [Projection(keys[0])] + Projections(keys[1..])
  }

  /** What follows the first ` AS `. */
  function Alias(item: string): Option<string> {
    if item == "" then None
    else if " AS " <= item then Some(item[4..])
    else Alias(item[1..])
  }

  /** The name a SELECT item is put out under: its alias, else the item itself. */
  function OutputName(item: string): string {
    if Alias(item).Some? then Alias(item).value else item
  }

  function OutputNames(items: seq<string>): seq<string> {
    if items == [] then [] else [OutputName(items[0])] + OutputNames(items[1..])
  }

  /** One `{{name}}` whose name holds no blank, quote, bracket, comma or brace. */
  predicate IsPlaceholder(key: string) {
    |key| > 4 && key == "{{" + Middle(key) + "}}" && forall c <- Middle(key) :: NameChar(c)
  }

  predicate NameChar(c: char) {
    !IsSpace(c) && c !in "'(),{}"
  }

  predicate KeyChar(c: char) {
    !IsSpace(c) && c !in "'(),"
  }

  lemma PlaceholderChars(key: string)
    requires IsPlaceholder(key)
    ensures forall c <- key :: KeyChar(c)
  {
    forall c <- key
      ensures KeyChar(c)
    {
      assert c in "{{" || c in Middle(key) || c in "}}";
    }
  }

  /** Text without quotes, brackets and commas does not change the splitter's state. */
  lemma {:induction false} QuietScan(s: string)
    requires forall c <- s :: c !in "'(),"
    ensures Passes(s)
  {
    if s != "" {
      assert s[0] in s;
      QuietScan(s[1..]);
    }
  }

  /** Text the splitter passes over without changing its state. */
  predicate Passes(s: string) {
    CommaSplit.Whole(s, CommaSplit.TOP) && CommaSplit.Scan(s, CommaSplit.TOP) == CommaSplit.TOP
  }

  /** A piece the splitter gives back as it is, whatever follows the next comma. */
  predicate Contained(p: string) {
    p != "" && Trimmed(p) && Passes(p)
  }

  lemma PassesAppend(a: string, b: string)
    requires Passes(a) && Passes(b)
    ensures Passes(a + b)
  {
    CommaSplit.ScanAppend(a, b, CommaSplit.TOP);
  }

  lemma ProjectionWordsPass()
    ensures Passes("{{input_view}}.") && Passes(" AS ")
  {
    QuietScan("{{input_view}}.");
    QuietScan(" AS ");
  }

  lemma KeyPasses(key: string)
    requires IsPlaceholder(key)
    ensures Passes(key) && !IsSpace(key[|key| - 1])
  {
    PlaceholderChars(key);
    assert key[|key| - 1] in key;
    QuietScan(key);
  }

  lemma ProjectionContained(key: string)
    requires IsPlaceholder(key)
    ensures Contained(Projection(key))
  {
    hide CommaSplit.Whole, CommaSplit.Scan;
    var head := "{{input_view}}.";
    KeyPasses(key);
    ProjectionWordsPass();
    PassesAppend(head, key);
    PassesAppend(head + key, " AS ");
    PassesAppend(head + key + " AS ", key);
    ProjectionTrimmed(key);
  }

  lemma ProjectionTrimmed(key: string)
    requires |key| > 4 && key[0] == '{' && !IsSpace(key[|key| - 1])
    ensures Projection(key) != "" && Trimmed(Projection(key))
  {
    var p := Projection(key);
    assert p[0] == '{' && p[|p| - 1] == key[|key| - 1];
  }

  lemma {:induction false} NoAlias(s: string)
    requires forall c <- s :: !IsSpace(c)
    ensures Alias(s) == None
  {
    if s != "" {
      assert s[0] in s;
      NoAlias(s[1..]);
    }
  }

  lemma {:induction false} AliasAfter(a: string, b: string)
    requires forall c <- a :: !IsSpace(c)
    ensures Alias(a + " AS " + b) == Some(b)
  {
    var s := a + " AS " + b;
    if a == "" {
      assert s == " AS " + b;
    } else {
      assert s[0] == a[0] && a[0] in a;
      assert s[1..] == a[1..] + " AS " + b;
      AliasAfter(a[1..], b);
    }
  }

  lemma PlaceholderOutput(key: string)
    requires IsPlaceholder(key)
    ensures OutputName(Projection(key)) == key && OutputName(key) == key
  {
    PlaceholderChars(key);
    NoAlias(key);
    var a := "{{input_view}}." + key;
    forall c <- a
      ensures !IsSpace(c)
    {
      assert c in "{{input_view}}." || c in key;
    }
    AliasAfter(a, key);
  }

  lemma OutputNamesCons(item: string, rest: seq<string>)
    ensures OutputNames([item] + rest) == [OutputName(item)] + OutputNames(rest)
  {
    assert ([item] + rest)[1..] == rest;
  }

  lemma NoOutputNames()
    ensures OutputNames([]) == []
  {
  }

  lemma {:induction false} PlaceholderOutputs(keys: seq<string>)
    requires forall k <- keys :: IsPlaceholder(k)
    ensures OutputNames(Projections(keys)) == keys && OutputNames(keys) == keys
    ensures forall p <- Projections(keys) :: Contained(p)
    ensures |Projections(keys)| == |keys|
  {
    if keys != [] {
      hide IsPlaceholder, Projection, OutputName, OutputNames, Contained;
      var rest := keys[1..];
      PlaceholderOutput(keys[0]);
      ProjectionContained(keys[0]);
      PlaceholderOutputs(rest);
      OutputNamesCons(Projection(keys[0]), Projections(rest));
      OutputNamesCons(keys[0], rest);
      assert keys == [keys[0]] + rest;
    } else {
      NoOutputNames();
    }
  }

  lemma PlaceholderContained(key: string)
    requires IsPlaceholder(key)
    ensures Contained(key)
  {
    PlaceholderChars(key);
    assert key[0] in key && key[|key| - 1] in key;
    QuietScan(key);
  }

  /** Contained pieces come off the front of a list one by one, whatever follows. */
  lemma {:induction false} SplitPrefix(head: string, items: seq<string>, rest: string)
    requires Spaces(head) && items != [] && forall p <- items :: Contained(p)
    ensures CommaSplit.Tidy(CommaSplit.Pieces(head + (Join(items, ", ") + ", " + rest), CommaSplit.TOP))
            == items + CommaSplit.Split(rest)
    decreases |items|
  {
    hide Contained, Strip, CommaSplit.Split, CommaSplit.Pieces, CommaSplit.Tidy, Spaces;
    var p := items[0];
    assert p in items;
    var tail := if |items| == 1 then rest else Join(items[1..], ", ") + ", " + rest;
    ContainedAfter(head, p);
    assert head + (Join(items, ", ") + ", " + rest) == (head + p) + "," + (" " + tail);
    TidyCons(head + p, " " + tail);
    if |items| == 1 {
      SplitSpace(rest);
    } else {
      CommaSplit.OneSpace();
      SplitPrefix(" ", items[1..], rest);
    }
  }

  lemma ContainedAfter(head: string, p: string)
    requires Spaces(head) && Contained(p)
    ensures Strip(head + p) == p && p != ""
    ensures Passes(head + p)
  {
    CommaSplit.SpacesScan(head, CommaSplit.TOP);
    CommaSplit.ScanAppend(head, p, CommaSplit.TOP);
    CommaSplit.StripLead(head, p);
  }

  lemma TidyCons(p: string, rest: string)
    requires Strip(p) != ""
    requires Passes(p)
    ensures CommaSplit.Tidy(CommaSplit.Pieces(p + "," + rest, CommaSplit.TOP))
            == [Strip(p)] + CommaSplit.Tidy(CommaSplit.Pieces(rest, CommaSplit.TOP))
  {
    var later := CommaSplit.Pieces(rest, CommaSplit.TOP);
    CommaSplit.PiecesComma(p, rest);
    assert ([p] + later)[1..] == later;
  }

  lemma StripSpace(s: string)
    ensures Strip(" " + s) == Strip(s)
  {
    RStripSpace(s);
    assert (" " + RStrip(s))[1..] == RStrip(s);
  }

  lemma {:induction false} RStripSpace(s: string)
    ensures RStrip(" " + s) == if RStrip(s) == "" then "" else " " + RStrip(s)
    decreases |s|
  {
    var t := " " + s;
    if s == "" {
      assert t == " " && t[..0] == "";
    } else if IsSpace(s[|s| - 1]) {
      assert t[|t| - 1] == s[|s| - 1];
      assert t[..|t| - 1] == " " + s[..|s| - 1];
      RStripSpace(s[..|s| - 1]);
    } else {
      assert t[|t| - 1] == s[|s| - 1];
    }
  }

  lemma SplitSpace(rest: string)
    ensures CommaSplit.Tidy(CommaSplit.Pieces(" " + rest, CommaSplit.TOP)) == CommaSplit.Split(rest)
  {
    var later := CommaSplit.Pieces(rest, CommaSplit.TOP);
    assert (" " + rest)[1..] == rest;
    assert CommaSplit.Pieces(" " + rest, CommaSplit.TOP) == [" " + later[0]] + later[1..];
    StripSpace(later[0]);
    assert ([" " + later[0]] + later[1..])[1..] == later[1..];
  }

  // ----- the whole body -----

  function Condition(predicateText: string): string {
    "(NOT (" + predicateText + ")) AS condition"
  }

  function FromClause(joinsSql: string): string {
    "{{input_view}}" + (if joinsSql != "" then " " + joinsSql else "")
  }

  function SelectKeys(keys: seq<string>, joined: bool): string {
    Join(if joined then Projections(keys) else keys, ", ")
  }

  /** `compile_lowcode_body`; None is a ValueError from an identifier path. */
  function CompileBody(rows: seq<Row>, joins: seq<TableJoin>, groupBy: string): Option<Body> {
    var joinsSql :- JoinsSql(joins);
    var predicateLexemes :- Stack(rows, joinsSql != "");
    var pred := Render(predicateLexemes);
    var groups := CommaSplit.Split(groupBy);
    if joinsSql == "" && groups == [] then Some(Body(Some(pred), None, None))
    else if groups != [] then
      var list := SelectKeys(groups, joinsSql != "") + ", " + Condition(pred);
      Some(Body(None,
                Some("SELECT " + list + " FROM " + FromClause(joinsSql) + " GROUP BY " + Join(groups, ", ")),
                Some(groups)))
    else
      var keys :- KeyRefs(joins);
      if keys != [] then
        var list := SelectKeys(keys, true) + ", " + Condition(pred);
        Some(Body(None, Some("SELECT " + list + " FROM " + FromClause(joinsSql)), Some(keys)))
      else
        Some(Body(None, Some("SELECT " + Condition(pred) + " FROM " + FromClause(joinsSql)), None))
  }

  /** The emitted GROUP BY text splits into exactly the merge columns, for every group-by text,
      unbalanced brackets and unterminated quotes included. */
  lemma GroupByResplits(rows: seq<Row>, joins: seq<TableJoin>, groupBy: string)
    returns (before: string, groupList: string)
    requires CommaSplit.Split(groupBy) != [] && CompileBody(rows, joins, groupBy).Some?
    ensures var body := CompileBody(rows, joins, groupBy).value;
            && body.sqlQuery == Some(before + " GROUP BY " + groupList)
            && groupList == Join(CommaSplit.Split(groupBy), ", ")
            && body.mergeColumns == Some(CommaSplit.Split(groupBy))
            && CommaSplit.Split(groupList) == CommaSplit.Split(groupBy)
  {
    hide Stack, JoinsSql, CommaSplit.Split, Condition, SelectKeys, KeyRefs;
    var joinsSql := JoinsSql(joins).value;
    var pred := Render(Stack(rows, joinsSql != "").value);
    var groups := CommaSplit.Split(groupBy);
    before := "SELECT " + (SelectKeys(groups, joinsSql != "") + ", " + Condition(pred))
              + " FROM " + FromClause(joinsSql);
    groupList := Join(groups, ", ");
    CommaSplit.SplitJoinSplit(groupBy);
  }

  /** The SELECT list of a body whose merge columns are single placeholders: read item by
      item, the names put out before the condition are the merge columns, in order. */
  lemma SelectNames(keys: seq<string>, joined: bool, rest: string)
    requires keys != [] && forall k <- keys :: IsPlaceholder(k)
    ensures var items := CommaSplit.Split(SelectKeys(keys, joined) + ", " + rest);
            && |items| == |keys| + |CommaSplit.Split(rest)|
            && OutputNames(items[..|keys|]) == keys
            && items[|keys|..] == CommaSplit.Split(rest)
  {
    var items := if joined then Projections(keys) else keys;
    PlaceholderOutputs(keys);
    forall k <- keys
      ensures Contained(k)
    {
      PlaceholderContained(k);
    }
    SplitPrefix("", items, rest);
    assert "" + (Join(items, ", ") + ", " + rest) == Join(items, ", ") + ", " + rest;
  }

  /** The same for whole bodies: the query is SELECT, a list, FROM, and the list's first
      output names are the merge columns. */
  lemma BodyOutputs(rows: seq<Row>, joins: seq<TableJoin>, groupBy: string)
    returns (list: string, tail: string)
    requires CompileBody(rows, joins, groupBy).Some?
    requires var m := CompileBody(rows, joins, groupBy).value.mergeColumns;
             m.Some? && forall k <- m.value :: IsPlaceholder(k)
    ensures var body := CompileBody(rows, joins, groupBy).value;
            && body.sqlQuery == Some("SELECT " + list + " FROM " + tail)
            && |CommaSplit.Split(list)| >= |body.mergeColumns.value| > 0
            && OutputNames(CommaSplit.Split(list)[..|body.mergeColumns.value|]) == body.mergeColumns.value
  {
    hide Stack, JoinsSql, CommaSplit.Split, Condition, SelectKeys, KeyRefs, OutputNames, IsPlaceholder, FromClause;
    var joinsSql := JoinsSql(joins).value;
    var pred := Render(Stack(rows, joinsSql != "").value);
    var keys := CompileBody(rows, joins, groupBy).value.mergeColumns.value;
    list := SelectKeys(keys, joinsSql != "") + ", " + Condition(pred);
    SelectNames(keys, joinsSql != "", Condition(pred));
    if CommaSplit.Split(groupBy) != [] {
      tail := FromClause(joinsSql) + " GROUP BY " + Join(keys, ", ");
      assert "SELECT " + list + " FROM " + FromClause(joinsSql) + " GROUP BY " + Join(keys, ", ") ==
             "SELECT " + list + " FROM " + tail;
    } else {
      tail := FromClause(joinsSql);
    }
  }

  /** For every stack the condition's text is read as the predicate's negation, TRUE exactly
      when the predicate is FALSE, provided the rows are legible; and it is read as it was meant
      exactly when the stack is well formed. */
  lemma ConditionNegates(rows: seq<Row>, q: bool, env: Env)
    requires StackOk(rows) && Stack(rows, q).Some?
    ensures var pred := Render(Stack(rows, q).value);
            && Condition(pred) == "(" + ("NOT (" + pred + ")") + ") AS condition"
            && (StackLegible(rows, q) ==> ReadText("NOT (" + pred + ")", env) == NotR(ReadText(pred, env)))
            && Render(FailCondition(Stack(rows, q).value)) == "NOT (" + pred + ")"
            && (ReadsAsMeant(FailCondition(Stack(rows, q).value), env) <==> WellFormed(rows, q))
  {
    hide Stack, WellFormed, StackOk, StackLegible, ReadsAsMeant, ReadText, Lex, FailCondition, Render;
    FailConditionNegates(rows, q, env);
    FailText(Stack(rows, q).value);
  }

  lemma FailText(p: Lexemes)
    ensures Render(FailCondition(p)) == "NOT (" + Render(p) + ")"
  {
    var a, c := [Key(KNot), Space, Punct('(')], [Punct(')')];
    assert FailCondition(p) == a + p + c;
    RenderAppend(a + p, c);
    RenderAppend(a, p);
    RenderOne(Punct(')'));
    RenderOpening();
  }

  lemma RenderOpening()
    ensures Render([Key(KNot), Space, Punct('(')]) == "NOT ("
  {
    RenderAppend([Key(KNot)], [Space]);
    RenderAppend([Key(KNot)] + [Space], [Punct('(')]);
    RenderOne(Key(KNot));
    RenderOne(Space);
    RenderOne(Punct('('));
    assert [Key(KNot)] + [Space] + [Punct('(')] == [Key(KNot), Space, Punct('(')];
  }

  /** A body is one predicate, or one query; merge columns come only with a query, and never empty. */
  lemma BodyShape(rows: seq<Row>, joins: seq<TableJoin>, groupBy: string)
    requires CompileBody(rows, joins, groupBy).Some?
    ensures var body := CompileBody(rows, joins, groupBy).value;
            var plain := (forall j <- joins :: !Usable(j)) && CommaSplit.Split(groupBy) == [];
            && body.passes.Some? == plain && body.sqlQuery.Some? == !plain
            && (body.mergeColumns.Some? ==> body.sqlQuery.Some? && body.mergeColumns.value != [])
  {
    HasJoinsIff(joins);
  }
}
