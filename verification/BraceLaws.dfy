/**
 The repair pass seen from outside: what is protected, and what the text around a word
 decides. Quoted text, quoted identifiers and placeholders are spelled out as they are
 written, and the words that bind a name one by one.
 */
module BraceLaws {
  import opened BraceIdempotence
  import opened BraceRefs
  import opened SqlText
  import opened Text

  // ----- protected text, as it is written -----

  /** Every `q` doubled. */
  function DoubledBy(v: string, q: char): string {
    if v == "" then "" else (if v[0] == q then [q, q] else [v[0]]) + DoubledBy(v[1..], q)
  }

  datatype Form = SingleQuoted | DoubleQuoted | Backticked | Placeholder

  function Written(form: Form, v: string): string {
    match form
    case SingleQuoted => "'" + DoubledBy(v, '\'') + "'"
    case DoubleQuoted => "\"" + DoubledBy(v, '\"') + "\""
    case Backticked => "`" + v + "`"
    case Placeholder => "{{" + v + "}}"
  }

  /** The text is written so that it ends where it should, and what follows does not extend it. */
  predicate Ends(form: Form, v: string, rest: string) {
    match form
    case SingleQuoted => rest == "" || rest[0] != '\''
    case DoubleQuoted => rest == "" || rest[0] != '\"'
    case Backticked => '`' !in v
    case Placeholder => Enclosed(v)
  }

  lemma LoneQuoteEnds(s: string, q: char)
    requires s != "" && s[0] == q && (|s| > 1 ==> s[1] != q)
    ensures QuoteEnd(s, q) == Some(1)
  {
  }

  lemma PairedQuoteEnds(s: string, tail: string, q: char)
    requires s == [q, q] + tail && QuoteEnd(tail, q).Some?
    ensures QuoteEnd(s, q) == Some(QuoteEnd(tail, q).value + 2)
  {
    assert s[2..] == tail;
  }

  lemma OtherCharEnds(s: string, tail: string, q: char)
    requires s != "" && s == [s[0]] + tail && s[0] != q && QuoteEnd(tail, q).Some?
    ensures QuoteEnd(s, q) == Some(QuoteEnd(tail, q).value + 1)
  {
    assert s[1..] == tail;
  }

  lemma DoubledFirst(v: string, q: char, end: string)
    requires v != ""
    ensures var head := if v[0] == q then [q, q] else [v[0]];
            && DoubledBy(v, q) + end == head + (DoubledBy(v[1..], q) + end)
            && |DoubledBy(v, q)| == |head| + |DoubledBy(v[1..], q)|
  {
    Regroup(if v[0] == q then [q, q] else [v[0]], DoubledBy(v[1..], q), end);
  }

  lemma {:induction false} DoubledEnds(v: string, q: char, rest: string)
    requires rest == "" || rest[0] != q
    ensures QuoteEnd(DoubledBy(v, q) + ([q] + rest), q) == Some(|DoubledBy(v, q)| + 1)
  {
    hide QuoteEnd;
    var end := [q] + rest;
    if v == "" {
      LoneQuoteEnds(end, q);
      assert DoubledBy(v, q) + end == end;
    } else {
      hide DoubledBy;
      var tail := DoubledBy(v[1..], q) + end;
      DoubledEnds(v[1..], q, rest);
      DoubledFirst(v, q, end);
      if v[0] == q {
        PairedQuoteEnds(DoubledBy(v, q) + end, tail, q);
      } else {
        OtherCharEnds(DoubledBy(v, q) + end, tail, q);
      }
    }
  }

  lemma QuoteOpensSpan(q: char, tail: string)
    requires (q == '\'' || q == '\"') && QuoteEnd(tail, q).Some?
    ensures Span([q] + tail) == Some(QuoteEnd(tail, q).value + 1)
  {
    hide QuoteEnd, FindClose, FindChar;
    var s := [q] + tail;
    assert s[0] == q && s[1..] == tail;
  }

  lemma QuotedIsSpan(q: char, body: string, rest: string)
    requires (q == '\'' || q == '\"') && QuoteEnd(body + ([q] + rest), q) == Some(|body| + 1)
    ensures Span([q] + body + [q] + rest) == Some(|body| + 2)
  {
    hide QuoteEnd;
    var tail := body + ([q] + rest);
    QuoteOpensSpan(q, tail);
    assert [q] + body + [q] + rest == [q] + tail;
  }

  lemma BacktickedIsSpan(v: string, rest: string)
    requires '`' !in v
    ensures Span("`" + v + "`" + rest) == Some(|v| + 2)
  {
    var s := "`" + v + "`" + rest;
    FindCharPrefix(v, '`', rest);
    assert s[0] == '`' && s[1..] == v + ['`'] + rest;
  }

  lemma PlaceholderIsSpan(v: string, rest: string)
    requires Enclosed(v)
    ensures Span("{{" + v + "}}" + rest) == Some(|v| + 4)
  {
    var s := "{{" + v + "}}" + rest;
    assert v + "}}" + "" == v + "}}";
    FindCloseStable(v + "}}", "", rest);
    assert s[0] == '{' && s[1] == '{' && s[2..] == v + "}}" + rest;
  }

  lemma WrittenIsSpan(form: Form, v: string, rest: string)
    requires Ends(form, v, rest)
    ensures Span(Written(form, v) + rest) == Some(|Written(form, v)|)
  {
    hide Span, QuoteEnd, DoubledBy, Enclosed;
    match form
    case SingleQuoted =>
      DoubledEnds(v, '\'', rest);
      QuotedIsSpan('\'', DoubledBy(v, '\''), rest);
    case DoubleQuoted =>
      DoubledEnds(v, '\"', rest);
      QuotedIsSpan('\"', DoubledBy(v, '\"'), rest);
    case Backticked => BacktickedIsSpan(v, rest);
    case Placeholder => PlaceholderIsSpan(v, rest);
  }

  /** Quoted text of both kinds, quoted identifiers and placeholders pass through unchanged,
      whatever they hold and whatever names are declared. */
  lemma WrittenIsKept(form: Form, v: string, rest: string, targets: set<string>)
    requires Ends(form, v, rest)
    ensures Span(Written(form, v) + rest) == Some(|Written(form, v)|)
    ensures Repaired(Written(form, v) + rest, targets) == Written(form, v) + Repaired(rest, targets)
  {
    hide Span, Written, Ends;
    WrittenIsSpan(form, v, rest);
    var w, s := Written(form, v), Written(form, v) + rest;
    assert s[..|w|] == w && s[|w|..] == rest;
  }

  lemma {:induction false} DoubledIsDoubled(v: string)
    ensures DoubledBy(v, '\'') == DoubleQuotes(v)
  {
    if v != "" {
      DoubledIsDoubled(v[1..]);
    }
  }

  /** A literal written by the compiler is exactly one protected span. */
  lemma LiteralIsOneSpan(v: string, rest: string)
    requires rest == "" || rest[0] != '\''
    ensures Span(Show(Str(v)) + rest) == Some(|Show(Str(v))|)
  {
    DoubledIsDoubled(v);
    WrittenIsSpan(SingleQuoted, v, rest);
  }

  lemma {:induction false} NoQuoteNoEnd(s: string, q: char)
    requires q !in s
    ensures QuoteEnd(s, q) == None && FindChar(s, q) == None
  {
    if s != "" {
      assert s[0] in s;
      NoQuoteNoEnd(s[1..], q);
    }
  }

  /** Nothing else is protected: other characters, single braces, and openings that never close. */
  lemma OtherTextIsNoSpan(s: string)
    ensures s == "" || s[0] !in "'\"`{" ==> Span(s) == None
    ensures s != "" && s[0] in "'\"`" && s[0] !in s[1..] ==> Span(s) == None
    ensures s != "" && s[0] == '{' && (|s| == 1 || s[1] != '{' || FindClose(s[2..]).None?) ==> Span(s) == None
  {
    if s != "" && s[0] in "'\"`" && s[0] !in s[1..] {
      NoQuoteNoEnd(s[1..], s[0]);
    }
  }

  // ----- what the surroundings decide -----

  lemma CharThen(c: char, x: string, ctx: Context, d: Decision)
    requires !IsIdentStart(c) && c !in "'\"`{"
    ensures Output([c] + x, ctx, d) == [c] + Output(x, Next(ctx, c), d)
  {
    var s := [c] + x;
    OtherTextIsNoSpan(s);
    assert s[0] == c && s[1..] == x;
  }

  lemma {:induction false} SpacesThen(gap: string, x: string, ctx: Context, d: Decision)
    requires Spaces(gap)
    ensures Output(gap + x, ctx, d) == gap + Output(x, ctx, d)
  {
    hide Output, Next, IsSpace;
    if gap == "" {
      assert gap + x == x;
    } else {
      var later := gap[1..] + x;
      assert gap[0] in gap;
      SpacesThen(gap[1..], x, ctx, d);
      SpaceIsPlain(gap[0]);
      CharThen(gap[0], later, ctx, d);
      assert gap + x == [gap[0]] + later;
      assert gap + Output(x, ctx, d) == [gap[0]] + (gap[1..] + Output(x, ctx, d));
    }
  }

  lemma SpaceIsPlain(c: char)
    requires IsSpace(c)
    ensures !IsIdentStart(c) && !IsIdentChar(c) && c !in "'\"`{" && forall ctx :: Next(ctx, c) == ctx
  {
  }

  lemma {:induction false} LStripGap(gap: string, x: string)
    requires Spaces(gap) && (x == "" || !IsSpace(x[0]))
    ensures LStrip(gap + x) == x
  {
    if gap == "" {
      assert gap + x == x;
    } else {
      assert gap[0] in gap && (gap + x)[1..] == gap[1..] + x;
      LStripGap(gap[1..], x);
    }
  }

  lemma BareIs(targets: set<string>, w: string, ctx: Context, rest: string)
    ensures Bare(targets)(w, ctx, rest) <==> w in targets && !Blocked(ctx) && !BlockedAfter(rest)
  {
  }

  /** A declared word alone, at the end of the text. */
  lemma LastWord(w: string, ctx: Context)
    requires IsIdentifier(w)
    ensures Output(w, ctx, Bare({w})) == if Blocked(ctx) then w else "{{" + w + "}}"
  {
    WordAlone(w, ctx, "", Bare({w}));
    EmptyOutput(After(w), Bare({w}));
    assert w + "" == w;
  }

  /** After another word, white space between them, a declared word is braced unless the other
      word is AS, FROM, JOIN, TABLE or INTO in any letter case. */
  lemma AfterWordDecides(k: string, gap: string, w: string)
    requires IsIdentifier(k) && IsIdentifier(w) && k != w && Spaces(gap) && gap != ""
    ensures Repaired(k + (gap + w), {w}) ==
            k + (gap + if Upper(k) in {"AS", "FROM", "JOIN", "TABLE", "INTO"} then w else "{{" + w + "}}")
  {
    var d := Bare({w});
    assert gap[0] in gap && (gap + w)[0] == gap[0];
    SpaceIsPlain(gap[0]);
    WordAlone(k, Start, gap + w, d);
    SpacesThen(gap, w, After(k), d);
    LastWord(w, After(k));
    BindingWords(k);
  }

  lemma BindingWords(k: string)
    ensures IsBinding(k) <==> Upper(k) in {"AS", "FROM", "JOIN", "TABLE", "INTO"}
  {
  }

  /** Small letters are 32 code points above the capital ones; nothing else is changed. */
  lemma UpperIs(s: string, i: nat)
    requires i < |s|
    ensures |Upper(s)| == |s|
    ensures 97 <= s[i] as int <= 122 ==> Upper(s)[i] as int == s[i] as int - 32
    ensures !(97 <= s[i] as int <= 122) ==> Upper(s)[i] == s[i]
  {
    assert 'a' as int == 97 && 'z' as int == 122 && 'A' as int == 65;
  }

  /** After a dot, white space between or not, a word stays bare; after any other mark it does not. */
  lemma AfterMarkDecides(c: char, gap: string, w: string)
    requires IsIdentifier(w) && Spaces(gap) && !IsIdentChar(c) && !IsSpace(c) && c !in "'\"`{"
    ensures Repaired([c] + (gap + w), {w}) == [c] + (gap + if c == '.' then w else "{{" + w + "}}")
  {
    var d := Bare({w});
    hide Output;
    CharThen(c, gap + w, Start, d);
    SpacesThen(gap, w, Next(Start, c), d);
    LastWord(w, Next(Start, c));
    assert Blocked(Next(Start, c)) <==> c == '.';
  }

  /** Before a dot or an opening bracket, white space between or not, a word stays bare; before any
      other mark it does not. */
  lemma BeforeMarkDecides(w: string, gap: string, c: char)
    requires IsIdentifier(w) && Spaces(gap) && !IsIdentChar(c) && !IsSpace(c) && c !in "'\"`{"
    ensures Repaired(w + (gap + [c]), {w}) == (if c == '.' || c == '(' then w else "{{" + w + "}}") + (gap + [c])
  {
    var d, tail := Bare({w}), gap + [c];
    if gap != "" {
      assert gap[0] in gap && tail[0] == gap[0];
      SpaceIsPlain(gap[0]);
    }
    LStripGap(gap, [c]);
    WordAlone(w, Start, tail, d);
    SpacesThen(gap, [c], After(w), d);
    CharThen(c, "", After(w), d);
    EmptyOutput(Next(After(w), c), d);
    assert [c] + "" == [c];
    assert BlockedAfter(tail) <==> c == '.' || c == '(';
    BareIs({w}, w, Start, tail);
  }

  /** A word that is not declared stays as it is. */
  lemma UndeclaredStays(w: string, targets: set<string>)
    requires IsIdentifier(w)
    ensures Repaired(w, targets) == if w in targets then "{{" + w + "}}" else w
  {
    WordAlone(w, Start, "", Bare(targets));
    EmptyOutput(After(w), Bare(targets));
    BareIs(targets, w, Start, "");
    assert w + "" == w && !BlockedAfter("");
  }

  /** Names are declared stripped, and only plain identifiers are names. */
  lemma TargetsAre(names: seq<string>, w: string)
    ensures w in Targets(names) <==> IsIdentifier(w) && exists n <- names :: Strip(n) == w
  {
  }
}
