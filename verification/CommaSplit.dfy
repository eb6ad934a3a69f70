/** The quote- and bracket-aware comma splitter, and its law: splitting, joining
    with ", " and splitting again gives the same pieces, for every text. */
module CommaSplit {
  import opened SqlText
  import opened Text

  /** Bracket depth (never negative) and whether a quoted literal is open. */
  datatype State = State(depth: nat, quoted: bool)

  const TOP := State(0, false)

  /** A doubled quote closes and reopens the literal, so every quote just flips the flag. */
  function Step(st: State, c: char): State {
    if c == '\'' then st.(quoted := !st.quoted)
    else if st.quoted then st
    else if c == '(' then st.(depth := st.depth + 1)
    else if c == ')' then st.(depth := if st.depth == 0 then 0 else st.depth - 1)
    else st
  }

  predicate Cuts(st: State, c: char) {
    st == TOP && c == ','
  }

  function Scan(s: string, st: State): State {
    if s == "" then st else Scan(s[1..], Step(st, s[0]))
  }

  /** No character of `s` is a split point. */
  predicate Whole(s: string, st: State) {
    s == "" || (!Cuts(st, s[0]) && Whole(s[1..], Step(st, s[0])))
  }

  /** The pieces between split points, white space and empties kept. */
  function Pieces(s: string, st: State): (r: seq<string>)
    ensures r != []
  {
    if s == "" then [""]
    else if Cuts(st, s[0]) then [""] + Pieces(s[1..], st)
    else
      var rest := Pieces(s[1..], Step(st, s[0]));
      [[s[0]] + rest[0]] + rest[1..]
  }

  /** `[p.strip() for p in pieces if p.strip()]` */
  function Tidy(pieces: seq<string>): seq<string> {
    if pieces == [] then []
    else (if Strip(pieces[0]) == "" then [] else [Strip(pieces[0])]) + Tidy(pieces[1..])
  }

  function Split(s: string): seq<string> {
    Tidy(Pieces(s, TOP))
  }

  lemma {:induction false} PiecesAppend(a: string, b: string, st: State)
    requires Whole(a, st)
    ensures Pieces(a + b, st) == [a + Pieces(b, Scan(a, st))[0]] + Pieces(b, Scan(a, st))[1..]
  {
    if a == "" {
      assert a + b == b;
      assert "" + Pieces(b, st)[0] == Pieces(b, st)[0];
    } else {
      assert (a + b)[1..] == a[1..] + b;
      PiecesAppend(a[1..], b, Step(st, a[0]));
      assert [a[0]] + (a[1..] + Pieces(b, Scan(a, st))[0]) == a + Pieces(b, Scan(a, st))[0];
    }
  }

  lemma {:induction false} ScanAppend(a: string, b: string, st: State)
    ensures Scan(a + b, st) == Scan(b, Scan(a, st))
    ensures Whole(a + b, st) <==> Whole(a, st) && Whole(b, Scan(a, st))
  {
    if a == "" {
      assert a + b == b;
    } else {
      assert (a + b)[1..] == a[1..] + b;
      ScanAppend(a[1..], b, Step(st, a[0]));
    }
  }

  /** Splits off the first piece. */
  lemma PiecesComma(a: string, b: string)
    requires Whole(a, TOP) && Scan(a, TOP) == TOP
    ensures Pieces(a + "," + b, TOP) == [a] + Pieces(b, TOP)
  {
    assert a + "," + b == a + ("," + b);
    assert ("," + b)[1..] == b;
    PiecesAppend(a, "," + b, TOP);
    assert a + "" == a;
  }

  lemma PiecesWhole(a: string)
    requires Whole(a, TOP)
    ensures Pieces(a, TOP) == [a]
  {
    PiecesAppend(a, "", TOP);
    assert a + "" == a;
  }

  /** Nothing is lost or added: the pieces joined by commas are the text. */
  lemma {:induction false} PiecesJoinBack(s: string, st: State)
    ensures Join(Pieces(s, st), ",") == s
  {
    if s != "" {
      var rest := Pieces(s[1..], if Cuts(st, s[0]) then st else Step(st, s[0]));
      PiecesJoinBack(s[1..], if Cuts(st, s[0]) then st else Step(st, s[0]));
      assert s == [s[0]] + s[1..];
      if Cuts(st, s[0]) {
        assert ([""] + rest)[1..] == rest;
      } else {
        JoinHead([s[0]], rest);
      }
    }
  }

  lemma JoinHead(head: string, pieces: seq<string>)
    requires pieces != []
    ensures Join([head + pieces[0]] + pieces[1..], ",") == head + Join(pieces, ",")
  {
    var all := [head + pieces[0]] + pieces[1..];
    assert all[1..] == pieces[1..];
  }

  // ----- the loop -----

  /** What is left to do at `i`, with the piece that begins at `start` still open. */
  function Pending(value: string, start: nat, i: nat, st: State): seq<string>
    requires start <= i <= |value|
  {
    var rest := Pieces(value[i..], st);
    [value[start..i] + rest[0]] + rest[1..]
  }

  lemma PendingStart(value: string)
    ensures Pieces(value, TOP) == Pending(value, 0, 0, TOP)
  {
    assert value[0..] == value && value[0..0] + Pieces(value, TOP)[0] == Pieces(value, TOP)[0];
  }

  lemma PendingStep(value: string, start: nat, i: nat, st: State)
    requires start <= i < |value|
    ensures !Cuts(st, value[i]) ==> Pending(value, start, i, st) == Pending(value, start, i + 1, Step(st, value[i]))
    ensures Cuts(st, value[i]) ==> Pending(value, start, i, st) == [value[start..i]] + Pending(value, i + 1, i + 1, st)
  {
    assert value[i..][1..] == value[i + 1..];
    var rest := Pieces(value[i + 1..], Step(st, value[i]));
    if Cuts(st, value[i]) {
      assert value[i + 1..i + 1] + rest[0] == rest[0];
      assert value[start..i] + "" == value[start..i];
    } else {
      assert value[start..i] + ([value[i]] + rest[0]) == value[start..i + 1] + rest[0];
    }
  }

  lemma PendingEnd(value: string, start: nat, st: State)
    requires start <= |value|
    ensures Pending(value, start, |value|, st) == [value[start..]]
  {
    assert value[|value|..] == "" && value[start..|value|] + "" == value[start..];
  }

  /** `_split_top_level_commas` */
  method SplitTopLevelCommas(value: string) returns (r: seq<string>)
    ensures r == Split(value)
  {
    hide Pieces, Pending, Tidy;
    var out: seq<string> := [];
    var depth: nat := 0;
    var inQuote := false;
    var start, i := 0, 0;
    PendingStart(value);
    while i < |value|
      invariant start <= i <= |value|
      invariant Pieces(value, TOP) == out + Pending(value, start, i, State(depth, inQuote))
    {
      var ch := value[i];
      PendingStep(value, start, i, State(depth, inQuote));
      if inQuote {
        if ch == '\'' && i + 1 < |value| && value[i + 1] == '\'' {
          PendingStep(value, start, i + 1, State(depth, false));
          i := i + 2;
          continue;
        }
        if ch == '\'' {
          inQuote := false;
        }
        i := i + 1;
        continue;
      }
      if ch == '\'' {
        inQuote := true;
      } else if ch == '(' {
        depth := depth + 1;
      } else if ch == ')' {
        depth := if depth == 0 then 0 else depth - 1;
      } else if ch == ',' && depth == 0 {
        assert out + ([value[start..i]] + Pending(value, i + 1, i + 1, TOP)) ==
               out + [value[start..i]] + Pending(value, i + 1, i + 1, TOP);
        out := out + [value[start..i]];
        start := i + 1;
      }
      i := i + 1;
    }
    PendingEnd(value, start, State(depth, inQuote));
    out := out + [value[start..]];
    return Tidy(out);
  }

  // ----- the pieces of a split -----

  /** All but the last piece are whole and end at the top level; the last is whole. */
  predicate Splittable(pieces: seq<string>) {
    && (forall p <- pieces :: Whole(p, TOP))
    && (forall i :: 0 <= i < |pieces| - 1 ==> Scan(pieces[i], TOP) == TOP)
  }

  lemma {:induction false} SpacesScan(s: string, st: State)
    requires Spaces(s)
    ensures Scan(s, st) == st && Whole(s, st)
  {
    if s != "" {
      assert IsSpace(s[0]);
      SpacesScan(s[1..], st);
    }
  }

  /** The raw pieces of a text scanned from `st`, after `head` was scanned from the top. */
  lemma {:induction false} PiecesSplittable(head: string, s: string)
    requires Whole(head, TOP)
    ensures var r := Pieces(s, Scan(head, TOP)); Splittable([head + r[0]] + r[1..])
    decreases |s|
  {
    var st := Scan(head, TOP);
    var r := Pieces(s, st);
    if s == "" {
      assert head + "" == head;
    } else if Cuts(st, s[0]) {
      PiecesSplittable("", s[1..]);
      var rest := Pieces(s[1..], TOP);
      assert "" + rest[0] == rest[0] && [rest[0]] + rest[1..] == rest;
      assert head + "" == head;
      var all := [head] + rest;
      assert [head + r[0]] + r[1..] == all;
      forall i | 0 <= i < |all| - 1
        ensures Scan(all[i], TOP) == TOP
      {
        if i > 0 {
          assert all[i] == rest[i - 1];
        }
      }
    } else {
      ScanAppend(head, [s[0]], TOP);
      assert [s[0]][1..] == "";
      PiecesSplittable(head + [s[0]], s[1..]);
      var rest := Pieces(s[1..], Step(st, s[0]));
      assert head + ([s[0]] + rest[0]) == head + [s[0]] + rest[0];
    }
  }

  /** The pieces are the only way to cut a text into whole pieces at top-level commas. */
  lemma {:induction false} PiecesAreUnique(pieces: seq<string>)
    requires pieces != [] && Splittable(pieces)
    ensures Pieces(Join(pieces, ","), TOP) == pieces
    decreases |pieces|
  {
    assert pieces[0] in pieces;
    if |pieces| == 1 {
      PiecesWhole(pieces[0]);
    } else {
      var rest := pieces[1..];
      assert forall i :: 0 <= i < |rest| ==> rest[i] == pieces[i + 1];
      PiecesAreUnique(rest);
      PiecesComma(pieces[0], Join(rest, ","));
    }
  }

  lemma StripScan(p: string)
    requires Whole(p, TOP)
    ensures Whole(Strip(p), TOP) && Trimmed(Strip(p))
    ensures Scan(Strip(p), TOP) == Scan(p, TOP)
  {
    var lead, tail := StripSplits(p);
    SpacesScan(lead, TOP);
    ScanAppend(lead, Strip(p), TOP);
    ScanAppend(lead + Strip(p), tail, TOP);
    SpacesScan(tail, Scan(lead + Strip(p), TOP));
  }

  /** Stripping and dropping empties keeps the pieces splittable. */
  lemma {:induction false} TidySplittable(pieces: seq<string>)
    requires Splittable(pieces)
    ensures Splittable(Tidy(pieces))
    ensures forall p <- Tidy(pieces) :: p != "" && Trimmed(p)
  {
    if pieces != [] {
      var rest := pieces[1..];
      assert forall i :: 0 <= i < |rest| ==> rest[i] == pieces[i + 1];
      TidySplittable(rest);
      StripScan(pieces[0]);
      var tidy := Tidy(pieces);
      if Strip(pieces[0]) != "" {
        if rest == [] {
          assert Tidy(rest) == [];
        }
        forall i | 0 <= i < |tidy| - 1
          ensures Scan(tidy[i], TOP) == TOP
        {
          if i > 0 {
            assert tidy[i] == Tidy(rest)[i - 1];
          }
        }
      }
    }
  }

  /** What a splitter's output looks like. */
  predicate Clean(pieces: seq<string>) {
    Splittable(pieces) && forall p <- pieces :: p != "" && Trimmed(p)
  }

  lemma SplitIsClean(s: string)
    ensures Clean(Split(s))
  {
    PiecesSplittable("", s);
    var r := Pieces(s, TOP);
    assert "" + r[0] == r[0] && [r[0]] + r[1..] == r;
    TidySplittable(r);
  }

  lemma CleanTail(pieces: seq<string>)
    requires pieces != [] && Clean(pieces)
    ensures Clean(pieces[1..])
  {
    var rest := pieces[1..];
    assert forall p <- rest :: p in pieces;
    forall i | 0 <= i < |rest| - 1
      ensures Scan(rest[i], TOP) == TOP
    {
      assert rest[i] == pieces[i + 1];
    }
  }

  lemma OneSpace()
    ensures Spaces(" ")
  {
  }

  /** Joining clean pieces and splitting at the commas gives them back, each with the
      separator's space in front. */
  lemma {:induction false} JoinPieces(head: string, pieces: seq<string>)
    requires Spaces(head) && pieces != [] && Clean(pieces)
    decreases |pieces|
    ensures Tidy(Pieces(head + Join(pieces, ", "), TOP)) == pieces
  {
    hide Scan, Whole, Strip, Trimmed;
    var p := pieces[0];
    assert p in pieces;
    SpacesScan(head, TOP);
    ScanAppend(head, p, TOP);
    StripLead(head, p);
    if |pieces| == 1 {
      PiecesWhole(head + p);
      assert [head + p][1..] == [];
    } else {
      var rest := pieces[1..];
      CleanTail(pieces);
      OneSpace();
      JoinPieces(" ", rest);
      assert head + Join(pieces, ", ") == (head + p) + "," + (" " + Join(rest, ", "));
      PiecesComma(head + p, " " + Join(rest, ", "));
      var raw := [head + p] + Pieces(" " + Join(rest, ", "), TOP);
      assert raw[1..] == Pieces(" " + Join(rest, ", "), TOP);
    }
  }

  lemma {:induction false} StripLead(head: string, p: string)
    requires Spaces(head) && p != "" && Trimmed(p)
    ensures Strip(head + p) == p
  {
    var s := head + p;
    assert s[|s| - 1] == p[|p| - 1];
    assert RStrip(s) == s;
    LStripLead(head, p);
  }

  lemma {:induction false} LStripLead(head: string, p: string)
    requires Spaces(head) && p != "" && Trimmed(p)
    ensures LStrip(head + p) == p
  {
    if head == "" {
      assert head + p == p;
    } else {
      assert (head + p)[1..] == head[1..] + p;
      LStripLead(head[1..], p);
    }
  }

  /** Any clean list survives being joined and split again. */
  lemma CleanRoundTrip(pieces: seq<string>)
    requires Clean(pieces)
    ensures Split(Join(pieces, ", ")) == pieces
  {
    if pieces != [] {
      JoinPieces("", pieces);
      assert "" + Join(pieces, ", ") == Join(pieces, ", ");
    } else {
      assert Pieces("", TOP) == [""] && Strip("") == "" && [""][1..] == [];
    }
  }

  /** Splitting is stable: for every text, the joined pieces split into the same pieces. */
  lemma SplitJoinSplit(s: string)
    ensures Split(Join(Split(s), ", ")) == Split(s)
  {
    SplitIsClean(s);
    CleanRoundTrip(Split(s));
  }

  // ----- where the cuts are, by counting -----

  function Count(s: string, c: char): nat {
    if s == "" then 0 else Count(s[..|s| - 1], c) + if s[|s| - 1] == c then 1 else 0
  }

  /** An even number of quotes stands before `k`. */
  predicate Unquoted(s: string, k: nat)
    requires k <= |s|
  {
    Count(s[..k], '\'') % 2 == 0
  }

  /** Opening minus closing brackets from `j` up to `k`, those inside quotes not counted. */
  function Balance(s: string, j: nat, k: nat): int
    requires j <= k <= |s|
  {
    if j == k then 0
    else
      Balance(s, j, k - 1)
      + if !Unquoted(s, k - 1) then 0 else if s[k - 1] == '(' then 1 else if s[k - 1] == ')' then -1 else 0
  }

  /** `k` is outside quotes, and no stretch before it opens more brackets than it closes. */
  predicate TopLevel(s: string, k: nat)
    requires k <= |s|
  {
    Unquoted(s, k) && forall j: nat :: j <= k ==> Balance(s, j, k) <= 0
  }

  /** The stretches between the cut positions, from `start` on. */
  function Between(s: string, cuts: seq<nat>, start: nat): seq<string>
    requires start <= |s| && forall i :: 0 <= i < |cuts| ==> start <= cuts[i] < |s|
    requires forall i, j :: 0 <= i < j < |cuts| ==> cuts[i] < cuts[j]
  {
    if cuts == [] then [s[start..]]
    else [s[start..cuts[0]]] + Between(s, cuts[1..], cuts[0] + 1)
  }

  function StateAt(s: string, k: nat): State
    requires k <= |s|
  {
    Scan(s[..k], TOP)
  }

  lemma StateNext(s: string, k: nat)
    requires k < |s|
    ensures StateAt(s, k + 1) == Step(StateAt(s, k), s[k])
    ensures Unquoted(s, k + 1) == if s[k] == '\'' then !Unquoted(s, k) else Unquoted(s, k)
  {
    ScanAppend(s[..k], [s[k]], TOP);
    assert s[..k + 1] == s[..k] + [s[k]] && [s[k]][1..] == "";
    assert s[..k + 1][..k] == s[..k];
  }

  /** The scan's depth is the largest surplus of opening brackets over the stretches that end here. */
  lemma {:induction false} DepthIsSurplus(s: string, k: nat) returns (j: nat)
    requires k <= |s|
    ensures StateAt(s, k).quoted <==> !Unquoted(s, k)
    ensures forall i: nat :: i <= k ==> Balance(s, i, k) <= StateAt(s, k).depth
    ensures j <= k && Balance(s, j, k) == StateAt(s, k).depth
  {
    if k == 0 {
      j := 0;
    } else {
      j := DepthIsSurplus(s, k - 1);
      StateNext(s, k - 1);
      hide StateAt, Unquoted, Count;
      var depth := StateAt(s, k - 1).depth;
      forall i: nat | i <= k
        ensures Balance(s, i, k) <= StateAt(s, k).depth
      {
        assert i < k ==> Balance(s, i, k - 1) <= depth;
      }
      if Unquoted(s, k - 1) && s[k - 1] == ')' && depth == 0 {
        j := k;
      }
    }
  }

  lemma TopLevelIsTop(s: string, k: nat)
    requires k <= |s|
    ensures TopLevel(s, k) <==> StateAt(s, k) == TOP
  {
    var j := DepthIsSurplus(s, k);
  }

  /** The cut positions from `k` on, and the pieces they make. */
  lemma {:induction false} CutsFrom(s: string, k: nat) returns (cuts: seq<nat>)
    requires k <= |s|
    ensures forall i :: 0 <= i < |cuts| ==> k <= cuts[i] < |s|
    ensures forall i, j :: 0 <= i < j < |cuts| ==> cuts[i] < cuts[j]
    ensures forall i: nat :: k <= i < |s| ==> (i in cuts <==> s[i] == ',' && TopLevel(s, i))
    ensures Pieces(s[k..], StateAt(s, k)) == Between(s, cuts, k)
    decreases |s| - k
  {
    if k == |s| {
      cuts := [];
    } else {
      var later := CutsFrom(s, k + 1);
      StateNext(s, k);
      TopLevelIsTop(s, k);
      assert s[k..][1..] == s[k + 1..];
      hide TopLevel, StateAt;
      if Cuts(StateAt(s, k), s[k]) {
        cuts := [k] + later;
        assert s[k..k] == "" && cuts[1..] == later;
      } else {
        cuts := later;
        BetweenEarlier(s, cuts, k);
      }
    }
  }

  lemma BetweenEarlier(s: string, cuts: seq<nat>, k: nat)
    requires k < |s| && forall i :: 0 <= i < |cuts| ==> k + 1 <= cuts[i] < |s|
    requires forall i, j :: 0 <= i < j < |cuts| ==> cuts[i] < cuts[j]
    ensures var rest := Between(s, cuts, k + 1); Between(s, cuts, k) == [[s[k]] + rest[0]] + rest[1..]
  {
    if cuts == [] {
      assert s[k..] == [s[k]] + s[k + 1..];
    } else {
      assert s[k..cuts[0]] == [s[k]] + s[k + 1..cuts[0]];
    }
  }

  /** A text is cut at exactly its top-level commas: those outside quotes with no bracket open. */
  lemma SplitsAtTopLevel(s: string) returns (cuts: seq<nat>)
    ensures forall i :: 0 <= i < |cuts| ==> cuts[i] < |s|
    ensures forall i, j :: 0 <= i < j < |cuts| ==> cuts[i] < cuts[j]
    ensures forall i: nat :: i < |s| ==> (i in cuts <==> s[i] == ',' && TopLevel(s, i))
    ensures Split(s) == Tidy(Between(s, cuts, 0))
  {
    cuts := CutsFrom(s, 0);
    assert s[0..] == s;
  }

  lemma {:induction false} TidyAppend(a: seq<string>, b: seq<string>)
    ensures Tidy(a + b) == Tidy(a) + Tidy(b)
  {
    if a == [] {
      assert a + b == b;
    } else {
      assert (a + b)[1..] == a[1..] + b;
      TidyAppend(a[1..], b);
    }
  }

  lemma {:induction false} SpacesStrip(p: string)
    ensures Spaces(p) <==> Strip(p) == ""
  {
    var lead, tail := StripSplits(p);
    if Strip(p) == "" {
      assert p == lead + tail;
    } else {
      assert Strip(p)[0] in p;
    }
  }

  /** Of the stretches between the cuts each one is stripped, and blank ones are dropped. */
  lemma TidyEach(a: seq<string>, p: string, b: seq<string>)
    ensures Tidy(a + [p] + b) == Tidy(a) + (if Spaces(p) then [] else [Strip(p)]) + Tidy(b)
  {
    SpacesStrip(p);
    TidyAppend(a + [p], b);
    TidyAppend(a, [p]);
    assert [p][1..] == [];
  }

  // ----- calls and literals are not cut -----

  /** No prefix closes more brackets than it opens, and the whole closes all it opens. */
  predicate Balanced(g: string) {
    && Count(g, '(') == Count(g, ')')
    && forall k: nat :: k <= |g| ==> Count(g[..k], '(') >= Count(g[..k], ')')
  }

  lemma {:induction false} CountAppend(a: string, b: string, c: char)
    ensures Count(a + b, c) == Count(a, c) + Count(b, c)
  {
    if b == "" {
      assert a + b == a;
    } else {
      assert (a + b)[..|a + b| - 1] == a + b[..|b| - 1];
      CountAppend(a, b[..|b| - 1], c);
    }
  }

  lemma {:induction false} ScanBrackets(g: string, depth: nat)
    requires '\'' !in g
    requires forall k: nat :: k <= |g| ==> depth + Count(g[..k], '(') > Count(g[..k], ')')
    ensures Whole(g, State(depth, false))
    ensures Scan(g, State(depth, false)) == State(depth + Count(g, '(') - Count(g, ')'), false)
  {
    assert g[..|g|] == g && depth + Count(g[..0], '(') > Count(g[..0], ')');
    if g != "" {
      var st := Step(State(depth, false), g[0]);
      var rest := g[1..];
      assert g[0] in g;
      OneChar(g[0]);
      assert g == [g[0]] + rest;
      CountAppend([g[0]], rest, '(');
      CountAppend([g[0]], rest, ')');
      forall k: nat | k <= |rest|
        ensures st.depth + Count(rest[..k], '(') > Count(rest[..k], ')')
      {
        assert g[..k + 1] == [g[0]] + rest[..k];
        CountAppend([g[0]], rest[..k], '(');
        CountAppend([g[0]], rest[..k], ')');
        assert depth + Count(g[..k + 1], '(') > Count(g[..k + 1], ')');
        assert depth + Count(g[..1], '(') > Count(g[..1], ')') && g[..1] == [g[0]];
      }
      ScanBrackets(rest, st.depth);
    }
  }

  lemma OneChar(c: char)
    ensures forall d :: Count([c], d) == if c == d then 1 else 0
  {
    assert [c][..0] == "";
  }

  lemma CallPasses(f: string, g: string)
    requires '\'' !in g && Balanced(g) && (forall c <- f :: c !in "'(),")
    ensures Whole(f + ("(" + g + ")"), TOP) && Scan(f + ("(" + g + ")"), TOP) == TOP
  {
    ScanPlain(f);
    ScanAppend(f, "(" + g + ")", TOP);
    ScanAppend("(" + g, ")", TOP);
    ScanAppend("(", g, TOP);
    assert "("[1..] == "" && ")"[1..] == "";
    ScanBrackets(g, 1);
  }

  lemma {:induction false} ScanPlain(f: string)
    requires forall c <- f :: c !in "'(),"
    ensures Whole(f, TOP) && Scan(f, TOP) == TOP
  {
    if f != "" {
      assert f[0] in f;
      ScanPlain(f[1..]);
    }
  }

  /** A piece that can be cut off is what the split begins with. */
  lemma SplitOff(p: string, rest: string)
    requires Whole(p, TOP) && Scan(p, TOP) == TOP && p != "" && Trimmed(p)
    ensures Split(p + "," + rest) == [p] + Split(rest)
  {
    PiecesComma(p, rest);
    StripTrimmed(p);
    assert ([p] + Pieces(rest, TOP))[1..] == Pieces(rest, TOP);
  }

  /** A call, or a bracketed text, is one piece whatever commas it holds, as long as its brackets
      balance. */
  lemma CallIsOnePiece(f: string, g: string, rest: string)
    requires '\'' !in g && Balanced(g) && (forall c <- f :: c !in "'(),") && (f != "" ==> !IsSpace(f[0]))
    ensures Split(f + ("(" + g + ")") + "," + rest) == [f + ("(" + g + ")")] + Split(rest)
  {
    CallPasses(f, g);
    SplitOff(f + ("(" + g + ")"), rest);
  }

  lemma {:induction false} QuotedPasses(v: string)
    ensures Whole(DoubleQuotes(v), State(0, true)) && Scan(DoubleQuotes(v), State(0, true)) == State(0, true)
  {
    if v != "" {
      var head := if v[0] == '\'' then "''" else [v[0]];
      QuotedPasses(v[1..]);
      ScanAppend(head, DoubleQuotes(v[1..]), State(0, true));
      assert head[1..] == (if v[0] == '\'' then "'" else "") && (v[0] == '\'' ==> head[1..][1..] == "");
    }
  }

  /** A literal is one piece, whatever commas, brackets and quotes it holds. */
  lemma LiteralIsOnePiece(v: string, rest: string)
    ensures Split(Show(Str(v)) + "," + rest) == [Show(Str(v))] + Split(rest)
  {
    var p := Show(Str(v));
    QuotedPasses(v);
    ScanAppend("'" + DoubleQuotes(v), "'", TOP);
    ScanAppend("'", DoubleQuotes(v), TOP);
    assert "'"[1..] == "";
    SplitOff(p, rest);
  }
}
