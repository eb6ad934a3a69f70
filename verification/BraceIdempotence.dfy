/**
 The repair pass run twice. A second pass may see larger protected spans (a stray `{{`
 now finds a `}}`), but braces nothing more, exactly when no declared name is a
 binding keyword.
 */
module BraceIdempotence {
  import opened Text
  import opened SqlText
  import opened BraceRefs

  // ----- what the output begins with and contains -----

  lemma OutputHead(s: string, ctx: Context, d: Decision)
    requires s != ""
    ensures Output(s, ctx, d) != ""
    ensures Output(s, ctx, d)[0] == s[0] || (IsIdentStart(s[0]) && Output(s, ctx, d)[0] == '{')
  {
    if Span(s).None? && IsIdentStart(s[0]) {
      assert s[..WordLen(s)][0] == s[0];
    }
  }

  lemma PieceContains(s: string, ctx: Context, d: Decision, q: char)
    requires s != "" && q != '{' && q != '}'
    ensures q in ShowPiece(FirstPiece(s, ctx, d)) <==> q in s[..FirstLen(s)]
  {
  }

  lemma {:induction false} OutputContains(s: string, ctx: Context, d: Decision, q: char)
    requires q != '{' && q != '}'
    ensures q in Output(s, ctx, d) <==> q in s
    decreases |s|
  {
    hide Span, FirstLen, FirstContext;
    if s != "" {
      var n := if Span(s).Some? then Span(s).value else FirstLen(s);
      assert s == s[..n] + s[n..];
      var next := if Span(s).Some? then Start else FirstContext(s, ctx);
      OutputContains(s[n..], next, d, q);
      if Span(s).None? {
        PieceContains(s, ctx, d, q);
      }
    }
  }

  // ----- spans survive -----

  lemma {:induction false} QuoteEndExists(s: string, q: char)
    ensures QuoteEnd(s, q).Some? <==> q in s
    decreases |s|
  {
    if s != "" {
      QuoteEndExists(s[1..], q);
      if |s| > 1 {
        QuoteEndExists(s[2..], q);
      }
    }
  }

  lemma QuoteEndSkip(a: string, x: string, q: char)
    requires a != "" && a[0] != q
    ensures QuoteEnd(a + x, q) == Some(|a|) <==> QuoteEnd(a[1..] + x, q) == Some(|a| - 1)
  {
    assert (a + x)[1..] == a[1..] + x;
  }

  lemma QuoteEndPair(a: string, x: string, q: char)
    requires |a| > 1 && a[0] == q && QuoteEnd(a + x, q) == Some(|a|)
    ensures a[1] == q && QuoteEnd(a[2..] + x, q) == Some(|a| - 2)
  {
    assert (a + x)[2..] == a[2..] + x;
  }

  lemma PairQuoteEnd(a: string, x: string, q: char)
    requires |a| > 1 && a[0] == q && a[1] == q && QuoteEnd(a[2..] + x, q) == Some(|a| - 2)
    ensures QuoteEnd(a + x, q) == Some(|a|)
  {
    assert (a + x)[2..] == a[2..] + x;
  }

  lemma LoneQuoteStable(a: string, x: string, y: string, q: char)
    requires a == [q] && QuoteEnd(a + x, q) == Some(1)
    requires x == "" || x[0] != q ==> y == "" || y[0] != q
    requires x != "" && x[0] == q && q !in x[1..] ==> y != "" && y[0] == q && q !in y[1..]
    ensures QuoteEnd(a + y, q) == Some(1)
  {
    if x != "" && x[0] == q {
      assert (a + x)[2..] == x[1..];
      QuoteEndExists(x[1..], q);
      QuoteEndExists(y[1..], q);
      assert (a + y)[2..] == y[1..];
    }
  }

  /** A literal keeps its end when what follows it keeps its first quote and holds no new one. */
  lemma {:induction false} QuoteEndStable(a: string, x: string, y: string, q: char)
    requires QuoteEnd(a + x, q) == Some(|a|)
    requires x == "" || x[0] != q ==> y == "" || y[0] != q
    requires x != "" && x[0] == q && q !in x[1..] ==> y != "" && y[0] == q && q !in y[1..]
    ensures QuoteEnd(a + y, q) == Some(|a|)
    decreases |a|
  {
    hide QuoteEnd;
    if a[0] != q {
      QuoteEndSkip(a, x, q);
      QuoteEndSkip(a, y, q);
      QuoteEndStable(a[1..], x, y, q);
    } else if |a| == 1 {
      LoneQuoteStable(a, x, y, q);
    } else {
      QuoteEndPair(a, x, q);
      QuoteEndStable(a[2..], x, y, q);
      PairQuoteEnd(a, y, q);
    }
  }

  lemma {:induction false} FindCharStable(a: string, x: string, y: string, c: char)
    requires FindChar(a + x, c).Some? && FindChar(a + x, c).value < |a|
    ensures FindChar(a + y, c) == FindChar(a + x, c)
  {
    if a[0] != c {
      assert (a + x)[1..] == a[1..] + x && (a + y)[1..] == a[1..] + y;
      FindCharStable(a[1..], x, y, c);
    }
  }

  lemma AfterQuote(x: string, d: Decision, q: char)
    requires q == '\'' || q == '\"'
    ensures var y := Output(x, Start, d);
            && (x == "" || x[0] != q ==> y == "" || y[0] != q)
            && (x != "" && x[0] == q && q !in x[1..] ==> y != "" && y[0] == q && q !in y[1..])
  {
    if x != "" {
      OutputHead(x, Start, d);
      if x[0] == q && q !in x[1..] {
        QuoteEndExists(x[1..], q);
        OutputContains(x[1..], Start, d, q);
        assert Output(x, Start, d) == [q] + Output(x[1..], Start, d);
      }
    }
  }

  lemma QuotedSpanStable(a: string, x: string, d: Decision)
    requires a != "" && (a[0] == '\'' || a[0] == '\"') && Span(a + x) == Some(|a|)
    ensures Span(a + Output(x, Start, d)) == Some(|a|)
  {
    hide Output;
    var y := Output(x, Start, d);
    assert (a + x)[1..] == a[1..] + x && (a + y)[1..] == a[1..] + y;
    AfterQuote(x, d, a[0]);
    QuoteEndStable(a[1..], x, y, a[0]);
  }

  lemma OtherSpanStable(a: string, x: string, y: string)
    requires a != "" && (a[0] == '{' || a[0] == '`') && Span(a + x) == Some(|a|)
    ensures Span(a + y) == Some(|a|)
  {
    if a[0] == '{' {
      assert (a + x)[2..] == a[2..] + x && (a + y)[2..] == a[2..] + y;
      FindCloseStable(a[2..], x, y);
    } else {
      assert (a + x)[1..] == a[1..] + x && (a + y)[1..] == a[1..] + y;
      FindCharStable(a[1..], x, y, '`');
    }
  }

  /** A protected span is still that span in front of repaired text. */
  lemma SpanStable(a: string, x: string, d: Decision)
    requires a != "" && Span(a + x) == Some(|a|)
    ensures Span(a + Output(x, Start, d)) == Some(|a|)
  {
    if a[0] == '\'' || a[0] == '\"' {
      QuotedSpanStable(a, x, d);
    } else {
      OtherSpanStable(a, x, Output(x, Start, d));
    }
  }

  /** What blocks a word from behind still does after the repair. */
  lemma {:induction false} BlockedAfterStable(s: string, ctx: Context, d: Decision)
    requires BlockedAfter(s)
    ensures BlockedAfter(Output(s, ctx, d))
    decreases |s|
  {
    OutputHead(s, ctx, d);
    if IsSpace(s[0]) {
      assert Span(s).None? && !IsIdentStart(s[0]);
      BlockedAfterStable(s[1..], Next(ctx, s[0]), d);
      var y := Output(s[1..], Next(ctx, s[0]), d);
      assert Output(s, ctx, d) == [s[0]] + y;
      assert ([s[0]] + y)[1..] == y;
    }
  }

  // ----- a stray `{{` that finds a `}}` in the repaired text -----

  lemma {:induction false} FindCloseSkip(a: string, y: string)
    requires FindClose(a).None? && a != "" && !(a[|a| - 1] == '}' && y != "" && y[0] == '}')
    ensures FindClose(a + y).None? == FindClose(y).None?
    ensures FindClose(y).Some? ==> FindClose(a + y) == Some(|a| + FindClose(y).value)
    ensures FindClose(y).Some? ==> (a + y)[|a| + FindClose(y).value + 2..] == y[FindClose(y).value + 2..]
  {
    assert (a + y)[1..] == a[1..] + y;
    if |a| == 1 {
      assert a[1..] + y == y;
    } else {
      FindCloseSkip(a[1..], y);
    }
  }

  lemma {:induction false} FindCloseSuffix(s: string, n: nat)
    requires n <= |s| && FindClose(s).None?
    ensures FindClose(s[n..]).None?
  {
    if n > 0 && |s| >= 2 {
      FindCloseSuffix(s[1..], n - 1);
      assert s[1..][n - 1..] == s[n..];
    }
  }

  lemma {:induction false} FindClosePrefixNone(s: string, n: nat)
    requires n <= |s| && FindClose(s).None?
    ensures FindClose(s[..n]).None?
  {
    if n >= 2 {
      FindClosePrefixNone(s[1..], n - 1);
      assert s[..n][1..] == s[1..][..n - 1];
    }
  }

  /** A braced word in front of `y`. */
  lemma BracedInFront(w: string, y: string)
    requires '}' !in w
    ensures var t := "{{" + w + "}}" + y;
            && FindClose(t) == Some(|w| + 2) && t[|w| + 4..] == y
            && Span(t) == Some(|w| + 4) && t[..|w| + 4] == "{{" + w + "}}"
  {
    var t := "{{" + w + "}}" + y;
    FindClosePrefix("{{" + w, y);
    FindClosePrefix(w, y);
    assert t[2..] == w + "}}" + y;
  }

  lemma NoCloseAcross(s: string, n: nat, next: Context, d: Decision)
    requires FindClose(s).None? && 0 < n <= |s|
    ensures var y := Output(s[n..], next, d); !(s[n - 1] == '}' && y != "" && y[0] == '}')
  {
    if n < |s| {
      OutputHead(s[n..], next, d);
      FindCloseSuffix(s, n - 1);
    }
  }

  /** Text without `}}` gains its first one at the end of a braced word; what follows is
      repaired text again. */
  lemma {:induction false} FirstNewClose(s: string, ctx: Context, d: Decision)
    returns (rest: string, word: string, before: Context, after: string)
    requires FindClose(s).None? && FindClose(Output(s, ctx, d)).Some?
    ensures Output(s, ctx, d)[FindClose(Output(s, ctx, d)).value + 2..] == Output(rest, After(word), d)
    ensures |rest| < |s| && d(word, before, after)
    decreases |s|, 1
  {
    hide FindClose;
    if Span(s).Some? {
      var n := Span(s).value;
      rest, word, before, after := NewCloseLater(s, n, s[..n], Start, ctx, d);
    } else if FirstPiece(s, ctx, d).Braced? {
      word, before, after, rest := s[..WordLen(s)], ctx, s[WordLen(s)..], s[WordLen(s)..];
      WordLenFacts(s);
      BracedInFront(word, Output(rest, After(word), d));
    } else {
      var n := FirstLen(s);
      rest, word, before, after := NewCloseLater(s, n, s[..n], FirstContext(s, ctx), ctx, d);
    }
  }

  lemma {:induction false} NewCloseLater(s: string, n: nat, a: string, next: Context, ctx: Context, d: Decision)
    returns (rest: string, word: string, before: Context, after: string)
    requires FindClose(s).None? && 0 < n <= |s| && a == s[..n]
    requires Output(s, ctx, d) == a + Output(s[n..], next, d) && FindClose(Output(s, ctx, d)).Some?
    ensures Output(s, ctx, d)[FindClose(Output(s, ctx, d)).value + 2..] == Output(rest, After(word), d)
    ensures |rest| < |s| && d(word, before, after)
    decreases |s|, 0
  {
    hide Output, Span;
    FindCloseSuffix(s, n);
    FindClosePrefixNone(s, n);
    NoCloseAcross(s, n, next, d);
    FindCloseSkip(a, Output(s[n..], next, d));
    rest, word, before, after := FirstNewClose(s[n..], next, d);
  }

  // ----- the second pass -----

  /** A second pass over the output from `s` on changes nothing. */
  predicate Settled(s: string, ctx: Context, ctx2: Context, d: Decision) {
    Output(Output(s, ctx, d), ctx2, d) == Output(s, ctx, d)
  }

  predicate NoBindingNames(targets: set<string>) {
    forall w <- targets :: !IsBinding(w)
  }

  lemma SettledSpan(s: string, ctx: Context, ctx2: Context, d: Decision)
    requires Span(s).Some? && Settled(s[Span(s).value..], Start, Start, d)
    ensures Settled(s, ctx, ctx2, d)
  {
    var n := Span(s).value;
    var y := Output(s[n..], Start, d);
    assert s == s[..n] + s[n..];
    SpanStable(s[..n], s[n..], d);
    assert (s[..n] + y)[..n] == s[..n] && (s[..n] + y)[n..] == y;
  }

  lemma WordThen(w: string, y: string)
    requires IsIdentifier(w) && (y == "" || !IsIdentChar(y[0]))
    ensures WordLen(w + y) == |w|
  {
    WordLenAppend(w, y);
    AllWord(w);
  }

  lemma {:induction false} AllWord(w: string)
    requires forall c <- w :: IsIdentChar(c)
    ensures WordLen(w) == |w|
  {
    if w != "" {
      AllWord(w[1..]);
    }
  }

  /** A word left bare stays bare. */
  lemma SettledBareWord(s: string, ctx: Context, ctx2: Context, targets: set<string>)
    requires s != "" && Span(s).None? && IsIdentStart(s[0]) && (Blocked(ctx) ==> Blocked(ctx2))
    requires FirstPiece(s, ctx, Bare(targets)).Plain?
    requires var w := s[..WordLen(s)]; Settled(s[WordLen(s)..], After(w), After(w), Bare(targets))
    ensures Settled(s, ctx, ctx2, Bare(targets))
  {
    hide Output, Span, WordLen, IsIdentifier, BlockedAfter;
    var d, n := Bare(targets), WordLen(s);
    var w, x := s[..n], s[n..];
    var y := Output(x, After(w), d);
    WordIsIdentifier(s);
    if x != "" {
      OutputHead(x, After(w), d);
    } else {
      EmptyOutput(After(w), d);
    }
    assert s == w + x;
    WordAlone(w, ctx, x, d);
    WordAlone(w, ctx2, y, d);
    if BlockedAfter(x) {
      BlockedAfterStable(x, After(w), d);
    }
  }

  /** A braced word is a placeholder, and so protected, the second time. */
  lemma SettledBracedWord(s: string, ctx: Context, ctx2: Context, d: Decision)
    requires s != "" && Span(s).None? && FirstPiece(s, ctx, d).Braced?
    requires Settled(s[WordLen(s)..], After(s[..WordLen(s)]), Start, d)
    ensures Settled(s, ctx, ctx2, d)
  {
    var n := WordLen(s);
    var w := s[..n];
    var y := Output(s[n..], After(w), d);
    WordLenFacts(s);
    BracedInFront(w, y);
  }

  /** The second pass protects up to `n`, and what follows is settled. */
  lemma SettledSwallow(t: string, rest: string, word: string, ctx2: Context, d: Decision)
    requires Span(t).Some? && t[Span(t).value..] == Output(rest, After(word), d)
    requires Settled(rest, After(word), Start, d)
    ensures Output(t, ctx2, d) == t
  {
    hide Span, FirstPiece, FirstContext;
    var n := Span(t).value;
    assert t == t[..n] + t[n..];
    assert Output(t, ctx2, d) == t[..n] + Output(t[n..], Start, d);
  }

  /** A character copied by the first pass, when it opens no span in the second. */
  lemma SettledCopy(s: string, ctx: Context, ctx2: Context, d: Decision)
    requires s != "" && Span(s).None? && !IsIdentStart(s[0])
    requires Span(Output(s, ctx, d)).None?
    requires Settled(s[1..], Next(ctx, s[0]), Next(ctx2, s[0]), d)
    ensures Settled(s, ctx, ctx2, d)
  {
    var y := Output(s[1..], Next(ctx, s[0]), d);
    assert ([s[0]] + y)[1..] == y;
  }

  /** Only `{` can open a span the first pass did not see. */
  lemma CopyOpensNothing(s: string, ctx: Context, d: Decision)
    requires s != "" && Span(s).None? && !IsIdentStart(s[0]) && s[0] != '{'
    ensures Span(Output(s, ctx, d)).None?
  {
    var y := Output(s[1..], Next(ctx, s[0]), d);
    assert Output(s, ctx, d) == [s[0]] + y && ([s[0]] + y)[1..] == y;
    if s[0] == '\'' || s[0] == '\"' {
      QuoteEndExists(s[1..], s[0]);
      QuoteEndExists(y, s[0]);
      OutputContains(s[1..], Next(ctx, s[0]), d, s[0]);
    } else if s[0] == '`' {
      FindCharExists(s[1..], '`');
      FindCharExists(y, '`');
      OutputContains(s[1..], Next(ctx, s[0]), d, '`');
    }
  }

  lemma {:induction false} FindCharExists(s: string, c: char)
    ensures FindChar(s, c).Some? <==> c in s
  {
    if s != "" {
      FindCharExists(s[1..], c);
    }
  }

  /** `{` in front of a word braced by the first pass. */
  lemma BraceBeforeWord(w: string, z: string)
    requires '}' !in w
    ensures var t := "{" + ("{{" + w + "}}" + z); Span(t) == Some(|w| + 5) && t[|w| + 5..] == z
  {
    var t := "{" + ("{{" + w + "}}" + z);
    FindClosePrefix("{" + w, z);
    assert t[2..] == "{" + w + "}}" + z;
  }

  /** `{{` that closes nowhere in the input. */
  lemma StrayOpening(x: string, d: Decision)
    requires x != "" && x[0] == '{' && FindClose(x[1..]).None?
    ensures Output(x, Start, d) == "{" + Output(x[1..], Start, d)
  {
    if |x| > 1 {
      FindCloseSuffix(x[1..], 1);
      assert x[1..][1..] == x[2..];
    }
    assert Span(x).None?;
  }

  lemma StraySpan(z: string)
    ensures var t := "{" + ("{" + z);
            && (Span(t).Some? <==> FindClose(z).Some?)
            && (Span(t).Some? ==> t[Span(t).value..] == z[FindClose(z).value + 2..])
  {
    var t := "{" + ("{" + z);
    assert t[2..] == z;
  }

  lemma OpensStray(x: string, d: Decision)
    returns (rest: string, word: string, before: Context, after: string)
    requires x != "" && x[0] == '{' && FindClose(x[1..]).None? && Span("{" + Output(x, Start, d)).Some?
    ensures var t := "{" + Output(x, Start, d); t[Span(t).value..] == Output(rest, After(word), d)
    ensures |rest| < |x| && d(word, before, after)
  {
    StrayOpening(x, d);
    StraySpan(Output(x[1..], Start, d));
    rest, word, before, after := FirstNewClose(x[1..], Start, d);
  }

  lemma OpensWord(x: string, d: Decision)
    returns (rest: string, word: string, before: Context, after: string)
    requires x != "" && x[0] != '{' && Output(x, Start, d)[..1] == "{"
    ensures var t := "{" + Output(x, Start, d);
            Span(t).Some? && t[Span(t).value..] == Output(rest, After(word), d)
    ensures |rest| < |x| && d(word, before, after)
  {
    OutputHead(x, Start, d);
    word, before, after, rest := x[..WordLen(x)], Start, x[WordLen(x)..], x[WordLen(x)..];
    WordLenFacts(x);
    assert Span(x).None? && FirstPiece(x, Start, d).Braced?;
    BraceBeforeWord(word, Output(rest, After(word), d));
  }

  /** What a `{` opens in the second pass, though it opened nothing in the first. */
  lemma BraceOpens(s: string, ctx: Context, d: Decision)
    returns (rest: string, word: string, before: Context, after: string)
    requires s != "" && s[0] == '{' && Span(s).None? && Span(Output(s, ctx, d)).Some?
    ensures var t := Output(s, ctx, d); t[Span(t).value..] == Output(rest, After(word), d)
    ensures |rest| < |s| && d(word, before, after)
  {
    var x := s[1..];
    var y := Output(x, Start, d);
    assert Output(s, ctx, d) == "{" + y;
    assert y[..1] == "{" by {
      assert ("{" + y)[1] == y[0];
    }
    if x[..1] == "{" {
      assert s[2..] == x[1..];
      rest, word, before, after := OpensStray(x, d);
    } else {
      rest, word, before, after := OpensWord(x, d);
    }
  }

  /** The second pass changes nothing, from any point of the scan. */
  lemma {:induction false} SecondPass(s: string, ctx: Context, ctx2: Context, targets: set<string>)
    requires NoBindingNames(targets) && (Blocked(ctx) ==> Blocked(ctx2))
    ensures Settled(s, ctx, ctx2, Bare(targets))
    decreases |s|
  {
    var d := Bare(targets);
    if s == "" {
    } else if Span(s).Some? {
      SecondPass(s[Span(s).value..], Start, Start, targets);
      SettledSpan(s, ctx, ctx2, d);
    } else if IsIdentStart(s[0]) {
      var w, x := s[..WordLen(s)], s[WordLen(s)..];
      if FirstPiece(s, ctx, d).Braced? {
        SecondPass(x, After(w), Start, targets);
        SettledBracedWord(s, ctx, ctx2, d);
      } else {
        SecondPass(x, After(w), After(w), targets);
        SettledBareWord(s, ctx, ctx2, targets);
      }
    } else if s[0] == '{' && Span(Output(s, ctx, d)).Some? {
      var rest, word, before, after := BraceOpens(s, ctx, d);
      SecondPass(rest, After(word), Start, targets);
      SettledSwallow(Output(s, ctx, d), rest, word, ctx2, d);
    } else {
      if s[0] != '{' {
        CopyOpensNothing(s, ctx, d);
      }
      SecondPass(s[1..], Next(ctx, s[0]), Next(ctx2, s[0]), targets);
      SettledCopy(s, ctx, ctx2, d);
    }
  }

  lemma WordAlone(k: string, ctx: Context, tail: string, d: Decision)
    requires IsIdentifier(k) && (tail == "" || !IsIdentChar(tail[0]))
    ensures Output(k + tail, ctx, d) == ShowPiece(WordPiece(k, ctx, tail, d)) + Output(tail, After(k), d)
  {
    hide ShowPiece, WordPiece;
    var s := k + tail;
    assert k[0] in k;
    WordThen(k, tail);
    assert s[..|k|] == k && s[|k|..] == tail && s[0] == k[0];
  }

  lemma SpaceThen(k: string, ctx: Context, d: Decision)
    requires IsIdentifier(k)
    ensures Output(" " + k, ctx, d) == " " + Output(k, ctx, d)
    ensures !BlockedAfter(" " + k) && !BlockedAfter("")
  {
    var s := " " + k;
    assert s[0] == ' ' && s[1..] == k;
    assert k[0] in k && IsIdentStart(k[0]) && !IsSpace(k[0]) && IsSpace(' ');
    assert LStrip(k) == k && LStrip(s) == LStrip(s[1..]) == k;
    assert Span(s).None? && FirstLen(s) == 1 && FirstContext(s, ctx) == Next(ctx, ' ') == ctx;
  }

  /** The pass braces `k` after nothing, and leaves it bare after itself. */
  predicate BareAfterItself(k: string, d: Decision) {
    d(k, Start, " " + k) && d(k, Start, "") && !d(k, After(k), "")
  }

  lemma BindingNameDecisions(k: string, targets: set<string>)
    requires k in targets && IsIdentifier(k) && IsBinding(k)
    ensures BareAfterItself(k, Bare(targets))
  {
    SpaceThen(k, Start, Bare(targets));
  }

  lemma BindingNameFirstPass(k: string, d: Decision)
    requires IsIdentifier(k) && BareAfterItself(k, d)
    ensures Output(k + (" " + k), Start, d) == "{{" + k + "}}" + (" " + k)
  {
    SpaceThen(k, After(k), d);
    WordAlone(k, Start, " " + k, d);
    assert k + "" == k;
    WordAlone(k, After(k), "", d);
  }

  lemma SpanThen(a: string, x: string, d: Decision)
    requires a != "" && Span(a + x) == Some(|a|)
    ensures Output(a + x, Start, d) == a + Output(x, Start, d)
  {
    assert (a + x)[..|a|] == a && (a + x)[|a|..] == x;
  }

  lemma EmptyOutput(ctx: Context, d: Decision)
    ensures Output("", ctx, d) == ""
  {
  }

  lemma BindingNameSecondPass(k: string, d: Decision)
    requires IsIdentifier(k) && BareAfterItself(k, d)
    ensures Output("{{" + k + "}}" + (" " + k), Start, d) == "{{" + k + "}}" + (" " + ("{{" + k + "}}"))
  {
    hide Output, Span;
    SpaceThen(k, Start, d);
    assert k + "" == k;
    WordAlone(k, Start, "", d);
    EmptyOutput(After(k), d);
    assert '}' !in k;
    BracedInFront(k, " " + k);
    SpanThen("{{" + k + "}}", " " + k, d);
  }

  /** A binding word that is declared: its second occurrence is braced by the second pass only. */
  lemma BindingNameChanges(k: string, targets: set<string>) returns (s: string)
    requires (forall w <- targets :: IsIdentifier(w)) && k in targets && IsBinding(k)
    ensures Repaired(Repaired(s, targets), targets) != Repaired(s, targets)
  {
    hide Output, IsBinding, IsIdentifier;
    BindingNameDecisions(k, targets);
    BindingNameFirstPass(k, Bare(targets));
    BindingNameSecondPass(k, Bare(targets));
    s := k + (" " + k);
    assert |Repaired(Repaired(s, targets), targets)| != |Repaired(s, targets)|;
  }

  /** The pass is idempotent on every text exactly when no declared name is one of
      AS, FROM, JOIN, TABLE, INTO in any letter case. */
  lemma IdempotentIff(targets: set<string>)
    requires forall w <- targets :: IsIdentifier(w)
    ensures (forall s: string :: Repaired(Repaired(s, targets), targets) == Repaired(s, targets))
            <==> NoBindingNames(targets)
  {
    if NoBindingNames(targets) {
      forall s: string
        ensures Repaired(Repaired(s, targets), targets) == Repaired(s, targets)
      {
        SecondPass(s, Start, Start, targets);
      }
    } else {
      var k :| k in targets && IsBinding(k);
      var s := BindingNameChanges(k, targets);
      assert Repaired(Repaired(s, targets), targets) != Repaired(s, targets);
    }
  }
}
