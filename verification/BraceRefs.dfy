/**
 The repair pass that wraps bare occurrences of declared names as `{{name}}`. Its laws:
 protected text is kept, removing the inserted braces gives the input back, and the
 pass is idempotent exactly when no declared name is one of the binding keywords.
 */
module BraceRefs {
  import opened Text
  import opened SqlText

  // ----- protected spans -----

  /** After an opening quote: how far the literal extends, closing quote included. The pattern
      prefers to read two quotes as one inner quote and falls back when nothing closes later. */
  function QuoteEnd(s: string, q: char): (r: Option<nat>)
    ensures r.Some? ==> 0 < r.value <= |s|
  {
    if s == "" then None
    else if s[0] != q then
      var n :- QuoteEnd(s[1..], q);
      Some(n + 1)
    else if |s| > 1 && s[1] == q then
      match QuoteEnd(s[2..], q)
      case Some(n) => Some(n + 2)
      case None => Some(1)
    else Some(1)
  }

  /** The length of the protected span that begins `s`: a placeholder, a quoted literal,
      a quoted identifier. */
  function Span(s: string): (r: Option<nat>)
    ensures r.Some? ==> 1 < r.value <= |s|
  {
    if s == "" then None
    else if s[0] == '{' then
      if !IsSlotOpen(s) then None
      else
        var n :- FindClose(s[2..]);
        Some(n + 4)
    else if s[0] == '\'' || s[0] == '\"' then
      var n :- QuoteEnd(s[1..], s[0]);
      Some(n + 1)
    else if s[0] == '`' then
      var n :- FindChar(s[1..], '`');
      Some(n + 2)
    else None
  }

  /** All protected spans, left to right. */
  function Spans(s: string): seq<string> {
    if s == "" then []
    else match Span(s)
         case Some(n) => [s[..n]] + Spans(s[n..])
         case None => Spans(s[1..])
  }

  // ----- words and their surroundings -----

  function WordLen(s: string): (n: nat)
    ensures n <= |s|
    ensures s != "" && IsIdentChar(s[0]) ==> n > 0
  {
    if s != "" && IsIdentChar(s[0]) then 1 + WordLen(s[1..]) else 0
  }

  lemma {:induction false} WordLenFacts(s: string)
    ensures forall c <- s[..WordLen(s)] :: IsIdentChar(c)
    ensures WordLen(s) < |s| ==> !IsIdentChar(s[WordLen(s)])
  {
    if s != "" && IsIdentChar(s[0]) {
      WordLenFacts(s[1..]);
      assert s[..WordLen(s)] == [s[0]] + s[1..][..WordLen(s) - 1];
    }
  }

  function Upper(s: string): string {
    seq(|s|, i requires 0 <= i < |s| => if 'a' <= s[i] <= 'z' then s[i] - 'a' + 'A' else s[i])
  }

  const BINDING_WORDS: seq<string> := ["AS", "FROM", "JOIN", "TABLE", "INTO"]

  /** A word after which an identifier names something instead of referring to a column. */
  predicate IsBinding(w: string) {
    Upper(w) in BINDING_WORDS
  }

  /** The last thing, white space aside, between the previous span and this point. */
  datatype Context = Start | Dot | After(word: string)

  function Next(ctx: Context, c: char): Context {
    if IsSpace(c) then ctx else if c == '.' then Dot else Start
  }

  predicate Blocked(ctx: Context) {
    ctx.Dot? || (ctx.After? && IsBinding(ctx.word))
  }

  /** Followed by `.` (a qualifier) or `(` (a function call). */
  predicate BlockedAfter(rest: string) {
    LStrip(rest) != "" && (LStrip(rest)[0] == '.' || LStrip(rest)[0] == '(')
  }

  // ----- the repair, piece by piece -----

  datatype Piece = Plain(text: string) | Protected(text: string) | Braced(word: string)

  /** Whether a word is braced, given what is before and after it. */
  type Decision = (string, Context, string) -> bool

  /** The pass's own decision: a declared name, blocked on neither side. */
  function Bare(targets: set<string>): Decision {
    (w: string, ctx: Context, rest: string) => w in targets && !Blocked(ctx) && !BlockedAfter(rest)
  }

  function WordPiece(w: string, ctx: Context, rest: string, d: Decision): Piece {
    if d(w, ctx, rest) then Braced(w) else Plain(w)
  }

  /** The first piece of a text without a span in front, and what is left. */
  function FirstLen(s: string): (n: nat)
    requires s != ""
    ensures 0 < n <= |s|
  {
    if IsIdentStart(s[0]) then WordLen(s) else 1
  }

  function FirstPiece(s: string, ctx: Context, d: Decision): Piece
    requires s != ""
  {
    if IsIdentStart(s[0]) then WordPiece(s[..WordLen(s)], ctx, s[WordLen(s)..], d) else Plain([s[0]])
  }

  function FirstContext(s: string, ctx: Context): Context
    requires s != ""
  {
    if IsIdentStart(s[0]) then After(s[..WordLen(s)]) else Next(ctx, s[0])
  }

  function Repair(s: string, ctx: Context, d: Decision): seq<Piece>
    decreases |s|
  {
    if s == "" then []
    else if Span(s).Some? then
      var n := Span(s).value;
      [Protected(s[..n])] + Repair(s[n..], Start, d)
    else
      [FirstPiece(s, ctx, d)] + Repair(s[FirstLen(s)..], FirstContext(s, ctx), d)
  }

  function ShowPiece(p: Piece): string {
    match p
    case Plain(text) => text
    case Protected(text) => text
    case Braced(word) => "{{" + word + "}}"
  }

  function ShowAll(ps: seq<Piece>): string {
    if ps == [] then "" else ShowPiece(ps[0]) + ShowAll(ps[1..])
  }

  /** The output text with the inserted braces taken out again. */
  function BareAll(ps: seq<Piece>): string {
    if ps == [] then "" else (if ps[0].Braced? then ps[0].word else ps[0].text) + BareAll(ps[1..])
  }

  function ProtectedOnly(ps: seq<Piece>): seq<string> {
    if ps == [] then []
    else (if ps[0].Protected? then [ps[0].text] else []) + ProtectedOnly(ps[1..])
  }

  /** The output text, from a point of the scan on. */
  function Output(s: string, ctx: Context, d: Decision): string
    decreases |s|
  {
    if s == "" then ""
    else if Span(s).Some? then s[..Span(s).value] + Output(s[Span(s).value..], Start, d)
    else ShowPiece(FirstPiece(s, ctx, d)) + Output(s[FirstLen(s)..], FirstContext(s, ctx), d)
  }

  function Repaired(s: string, targets: set<string>): string {
    Output(s, Start, Bare(targets))
  }

  /** The output is the pieces written one after another. */
  lemma {:induction false} OutputShows(s: string, ctx: Context, d: Decision)
    ensures Output(s, ctx, d) == ShowAll(Repair(s, ctx, d))
    decreases |s|
  {
    if s != "" {
      if Span(s).Some? {
        OutputShows(s[Span(s).value..], Start, d);
      } else {
        OutputShows(s[FirstLen(s)..], FirstContext(s, ctx), d);
      }
    }
  }

  /** Removing the inserted braces gives back the input. */
  lemma {:induction false} BracesComeOff(s: string, ctx: Context, d: Decision)
    ensures BareAll(Repair(s, ctx, d)) == s
    decreases |s|
  {
    hide Span, FirstPiece, FirstLen, FirstContext;
    if s != "" {
      if Span(s).Some? {
        var n := Span(s).value;
        BracesComeOff(s[n..], Start, d);
        assert s == s[..n] + s[n..];
      } else {
        var n := FirstLen(s);
        BracesComeOff(s[n..], FirstContext(s, ctx), d);
        FirstPieceIsBare(s, ctx, d);
        assert s == s[..n] + s[n..];
      }
    }
  }

  lemma FirstPieceIsBare(s: string, ctx: Context, d: Decision)
    requires s != ""
    ensures var p := FirstPiece(s, ctx, d);
            !p.Protected? && (if p.Braced? then p.word else p.text) == s[..FirstLen(s)]
  {
  }

  lemma {:induction false} SpansSkipWord(s: string, n: nat)
    requires n <= |s| && forall c <- s[..n] :: IsIdentChar(c)
    ensures Spans(s) == Spans(s[n..])
  {
    if n > 0 {
      assert s[0] in s[..n];
      assert s[1..][..n - 1] == s[..n][1..] && s[1..][n - 1..] == s[n..];
      SpansSkipWord(s[1..], n - 1);
    }
  }

  /** Every protected span of the input is in the output, unchanged and in order. */
  lemma {:induction false} SpansAreKept(s: string, ctx: Context, d: Decision)
    ensures ProtectedOnly(Repair(s, ctx, d)) == Spans(s)
    decreases |s|
  {
    if s != "" {
      if Span(s).Some? {
        SpansAreKept(s[Span(s).value..], Start, d);
      } else {
        if IsIdentStart(s[0]) {
          WordLenFacts(s);
          SpansSkipWord(s, WordLen(s));
        }
        SpansAreKept(s[FirstLen(s)..], FirstContext(s, ctx), d);
      }
    }
  }

  // ----- the code: spans outside, words inside a segment -----

  /** The identifier that ends `t`, as the search pattern finds it. */
  function TrailingIdentifier(t: string): Option<string> {
    if t == "" then None else if IsIdentifier(t) then Some(t) else TrailingIdentifier(t[1..])
  }

  /** The test the replacement function makes on the text before a word. */
  predicate BlockedBefore(before: string) {
    || EndsWith(before, ".")
    || (TrailingIdentifier(before).Some? && IsBinding(TrailingIdentifier(before).value))
  }

  function ContextOf(prefix: string): Context {
    var t := RStrip(prefix);
    if EndsWith(t, ".") then Dot
    else match TrailingIdentifier(t)
         case Some(w) => After(w)
         case None => Start
  }

  lemma ContextDecides(prefix: string)
    ensures Blocked(ContextOf(prefix)) <==> BlockedBefore(RStrip(prefix))
  {
  }

  /** The scan is between words: no identifier runs up to this point. */
  predicate BetweenWords(p: string) {
    p == "" || !IsIdentChar(p[|p| - 1]) || TrailingIdentifier(p).None?
  }

  lemma {:induction false} NoTrailing(p: string)
    requires p == "" || !IsIdentChar(p[|p| - 1])
    ensures TrailingIdentifier(p).None?
  {
    if p != "" {
      assert p[|p| - 1] in p;
      NoTrailing(p[1..]);
    }
  }

  lemma IdentifierPrefix(p: string, w: string)
    requires p != "" && IsIdentifier(p + w)
    ensures IsIdentifier(p) && IsIdentChar(p[|p| - 1])
  {
    assert forall c <- p :: c in p + w;
    assert p[|p| - 1] in p && (p + w)[0] == p[0];
  }

  lemma {:induction false} TrailingWord(p: string, w: string)
    requires IsIdentifier(w) && BetweenWords(p)
    ensures TrailingIdentifier(p + w) == Some(w)
  {
    if p == "" {
      assert p + w == w;
    } else {
      var t := p + w;
      assert t[1..] == p[1..] + w;
      if IsIdentifier(t) {
        IdentifierPrefix(p, w);
        assert false;
      }
      TrailingWord(p[1..], w);
    }
  }

  lemma {:induction false} TrailingDigit(p: string, c: char)
    requires IsDigit(c) && BetweenWords(p)
    ensures TrailingIdentifier(p + [c]).None?
  {
    var t := p + [c];
    if p == "" {
      assert t[1..] == "";
    } else {
      assert t[1..] == p[1..] + [c];
      if IsIdentifier(t) {
        IdentifierPrefix(p, [c]);
        assert false;
      }
      TrailingDigit(p[1..], c);
    }
  }

  lemma ContextStep(p: string, c: char)
    requires BetweenWords(p) && !IsIdentStart(c)
    ensures ContextOf(p + [c]) == Next(ContextOf(p), c) && BetweenWords(p + [c])
  {
    var t := p + [c];
    assert t[..|t| - 1] == p;
    if IsSpace(c) {
      assert RStrip(t) == RStrip(p);
    } else {
      assert RStrip(t) == t;
      if c == '.' {
        assert t[|t| - 1..] == ".";
      } else {
        assert t[|t| - 1..] == [c];
        if IsDigit(c) {
          TrailingDigit(p, c);
        } else {
          NoTrailing(t);
        }
      }
    }
  }

  lemma ContextWord(p: string, w: string)
    requires BetweenWords(p) && IsIdentifier(w)
    ensures ContextOf(p + w) == After(w)
  {
    var t := p + w;
    var last := w[|w| - 1];
    assert last in w && IsIdentChar(last) && !IsSpace(last);
    assert t[|t| - 1] == last && t[|t| - 1..] == [last];
    assert RStrip(t) == t;
    TrailingWord(p, w);
  }

  /** The output for a segment between spans. */
  function SegmentText(s: string, ctx: Context, d: Decision): string
    decreases |s|
  {
    if s == "" then ""
    else ShowPiece(FirstPiece(s, ctx, d)) + SegmentText(s[FirstLen(s)..], FirstContext(s, ctx), d)
  }

  lemma NonWordStep(p: string, c: char)
    requires !IsIdentStart(c) && (BetweenWords(p) || !IsIdentChar(c))
    ensures ContextOf(p + [c]) == Next(ContextOf(p), c) && BetweenWords(p + [c])
  {
    if BetweenWords(p) {
      ContextStep(p, c);
    } else {
      var t := p + [c];
      assert t[..|t| - 1] == p;
      if IsSpace(c) {
        assert RStrip(t) == RStrip(p);
      } else {
        assert RStrip(t) == t && t[|t| - 1..] == [c];
        NoTrailing(t);
      }
    }
  }

  /** What is left of a segment at `pos`. */
  function Remaining(segment: string, pos: nat, d: Decision): string
    requires pos <= |segment|
  {
    SegmentText(segment[pos..], ContextOf(segment[..pos]), d)
  }

  lemma WordIsIdentifier(s: string)
    requires s != "" && IsIdentStart(s[0])
    ensures IsIdentifier(s[..WordLen(s)])
    ensures WordLen(s) < |s| ==> !IsIdentChar(s[WordLen(s)])
  {
    WordLenFacts(s);
    assert s[..WordLen(s)][0] == s[0];
  }

  lemma RemainingWord(segment: string, pos: nat, d: Decision)
    requires pos < |segment| && IsIdentStart(segment[pos]) && BetweenWords(segment[..pos])
    ensures var n := WordLen(segment[pos..]);
            var word := segment[pos..pos + n];
            && word != ""
            && Remaining(segment, pos, d) ==
               (if d(word, ContextOf(segment[..pos]), segment[pos + n..]) then "{{" + word + "}}" else word)
               + Remaining(segment, pos + n, d)
            && (pos + n < |segment| ==> !IsIdentChar(segment[pos + n]))
  {
    hide IsIdentStart, IsIdentChar, IsIdentifier, ContextOf, BetweenWords, WordLen;
    var s := segment[pos..];
    var n := WordLen(s);
    var word := s[..n];
    WordIsIdentifier(s);
    assert s[n..] == segment[pos + n..] && word == segment[pos..pos + n];
    ContextWord(segment[..pos], word);
    assert segment[..pos + n] == segment[..pos] + word;
  }

  lemma RemainingOther(segment: string, pos: nat, d: Decision)
    requires pos < |segment| && !IsIdentStart(segment[pos])
    requires BetweenWords(segment[..pos]) || !IsIdentChar(segment[pos])
    ensures Remaining(segment, pos, d) == [segment[pos]] + Remaining(segment, pos + 1, d)
    ensures BetweenWords(segment[..pos + 1])
  {
    assert segment[pos..][1..] == segment[pos + 1..];
    assert segment[..pos + 1] == segment[..pos] + [segment[pos]];
    NonWordStep(segment[..pos], segment[pos]);
  }

  /** One match of the word pattern, or one character between matches. */
  method ReplaceAt(segment: string, pos: nat, targets: set<string>) returns (text: string, next: nat)
    requires pos < |segment| && (IsIdentChar(segment[pos]) ==> BetweenWords(segment[..pos]))
    ensures pos < next <= |segment|
    ensures next < |segment| && IsIdentChar(segment[next]) ==> BetweenWords(segment[..next])
    ensures Remaining(segment, pos, Bare(targets)) == text + Remaining(segment, next, Bare(targets))
  {
    hide Remaining, BetweenWords, ContextOf, RStrip, BlockedBefore, BlockedAfter, WordLen;
    if !IsIdentStart(segment[pos]) {
      RemainingOther(segment, pos, Bare(targets));
      return [segment[pos]], pos + 1;
    }
    next := pos + WordLen(segment[pos..]);
    var word := segment[pos..next];
    RemainingWord(segment, pos, Bare(targets));
    ContextDecides(segment[..pos]);
    if word !in targets || BlockedAfter(segment[next..]) || BlockedBefore(RStrip(segment[..pos])) {
      text := word;
    } else {
      text := "{{" + word + "}}";
    }
  }

  /** `brace_segment` */
  method BraceSegment(segment: string, targets: set<string>) returns (r: string)
    ensures r == SegmentText(segment, Start, Bare(targets))
  {
    r := "";
    var pos := 0;
    assert segment[0..] == segment;
    while pos < |segment|
      invariant pos <= |segment|
      invariant pos < |segment| && IsIdentChar(segment[pos]) ==> BetweenWords(segment[..pos])
      invariant SegmentText(segment, Start, Bare(targets)) == r + Remaining(segment, pos, Bare(targets))
    {
      var text;
      text, pos := ReplaceAt(segment, pos, targets);
      r := r + text;
    }
  }

  lemma LStripAppend(a: string, b: string)
    requires b == "" || (!IsSpace(b[0]) && b[0] != '.' && b[0] != '(')
    ensures BlockedAfter(a + b) == BlockedAfter(a)
  {
    if a == "" {
      assert a + b == b;
    } else if IsSpace(a[0]) {
      assert (a + b)[1..] == a[1..] + b;
      LStripAppend(a[1..], b);
    }
  }

  lemma WordLenAppend(a: string, b: string)
    requires b == "" || !IsIdentChar(b[0])
    ensures WordLen(a + b) == WordLen(a)
  {
    if a == "" {
      assert a + b == b;
    } else if IsIdentChar(a[0]) {
      assert (a + b)[1..] == a[1..] + b;
      WordLenAppend(a[1..], b);
    }
  }

  /** Nothing, or something that begins like a protected span. */
  predicate NotWordly(b: string) {
    b == "" || b[0] == '{' || b[0] == '\'' || b[0] == '\"' || b[0] == '`'
  }

  /** The decision looks no further than the next span. */
  ghost predicate Local(d: Decision) {
    forall w, ctx, a, b :: NotWordly(b) ==> d(w, ctx, a + b) == d(w, ctx, a)
  }

  lemma BareIsLocal(targets: set<string>)
    ensures Local(Bare(targets))
  {
    forall a, b | NotWordly(b)
      ensures BlockedAfter(a + b) == BlockedAfter(a)
    {
      LStripAppend(a, b);
    }
  }

  lemma FirstAppend(seg: string, rest: string, ctx: Context, d: Decision)
    requires seg != "" && NotWordly(rest) && Local(d)
    ensures FirstLen(seg + rest) == FirstLen(seg)
    ensures FirstPiece(seg + rest, ctx, d) == FirstPiece(seg, ctx, d)
    ensures FirstContext(seg + rest, ctx) == FirstContext(seg, ctx)
  {
    var s := seg + rest;
    assert s[0] == seg[0];
    if IsIdentStart(seg[0]) {
      var n := WordLen(seg);
      WordLenAppend(seg, rest);
      assert s[..n] == seg[..n] && s[n..] == seg[n..] + rest;
    }
  }

  lemma SegmentStep(seg: string, rest: string, ctx: Context, d: Decision)
    requires seg != "" && Span(seg + rest).None? && NotWordly(rest) && Local(d)
    ensures Output(seg + rest, ctx, d) ==
            ShowPiece(FirstPiece(seg, ctx, d)) + Output(seg[FirstLen(seg)..] + rest, FirstContext(seg, ctx), d)
  {
    FirstAppend(seg, rest, ctx, d);
    assert (seg + rest)[FirstLen(seg)..] == seg[FirstLen(seg)..] + rest;
  }

  /** Where the next span begins; the length when there is none. */
  function NextSpan(s: string): (n: nat)
    ensures n <= |s|
  {
    if s == "" || Span(s).Some? then 0 else 1 + NextSpan(s[1..])
  }

  lemma {:induction false} NextSpanFacts(s: string, k: nat)
    requires k <= NextSpan(s)
    ensures NextSpan(s[k..]) == NextSpan(s) - k
  {
    if k > 0 {
      NextSpanFacts(s[1..], k - 1);
      assert s[1..][k - 1..] == s[k..];
    } else {
      assert s[0..] == s;
    }
  }

  lemma SegmentLeft(seg: string, rest: string)
    requires seg != "" && NextSpan(seg + rest) == |seg|
    ensures Span(seg + rest).None?
    ensures NextSpan(seg[FirstLen(seg)..] + rest) == |seg[FirstLen(seg)..]|
  {
    var n := FirstLen(seg);
    NextSpanFacts(seg + rest, n);
    assert (seg + rest)[n..] == seg[n..] + rest;
  }

  lemma NoSegment(rest: string, ctx: Context, d: Decision)
    requires rest == "" || Span(rest).Some?
    ensures Output("" + rest, ctx, d) == SegmentText("", ctx, d) + Output(rest, Start, d)
  {
    hide Span;
    SpanForgetsContext(rest, ctx, d);
    assert "" + rest == rest;
  }

  lemma SegmentTextStep(s: string, ctx: Context, d: Decision)
    requires s != ""
    ensures SegmentText(s, ctx, d) ==
            ShowPiece(FirstPiece(s, ctx, d)) + SegmentText(s[FirstLen(s)..], FirstContext(s, ctx), d)
  {
  }

  lemma SpanForgetsContext(rest: string, ctx: Context, d: Decision)
    requires rest == "" || Span(rest).Some?
    ensures Output(rest, ctx, d) == Output(rest, Start, d)
  {
    hide Span;
  }

  lemma SpanStarts(rest: string)
    requires rest == "" || Span(rest).Some?
    ensures NotWordly(rest)
  {
    hide QuoteEnd, FindClose, FindChar;
  }

  /** Up to the next span, the whole-text output is the segment's. */
  lemma {:induction false} RepairSegment(seg: string, rest: string, ctx: Context, d: Decision)
    requires NextSpan(seg + rest) == |seg| && (rest == "" || Span(rest).Some?) && Local(d)
    ensures Output(seg + rest, ctx, d) == SegmentText(seg, ctx, d) + Output(rest, Start, d)
    decreases |seg|
  {
    hide Output, NextSpan, Local, Span, FirstPiece, ShowPiece, NotWordly, SegmentText, FirstLen, FirstContext;
    if seg == "" {
      NoSegment(rest, ctx, d);
    } else {
      SpanStarts(rest);
      SegmentLeft(seg, rest);
      SegmentStep(seg, rest, ctx, d);
      var later := seg[FirstLen(seg)..];
      RepairSegment(later, rest, FirstContext(seg, ctx), d);
      SegmentTextStep(seg, ctx, d);
      Regroup(ShowPiece(FirstPiece(seg, ctx, d)), SegmentText(later, FirstContext(seg, ctx), d),
              Output(rest, Start, d));
    }
  }

  /** The usable names: stripped, and plain identifiers. */
  function Targets(names: seq<string>): (t: set<string>)
    ensures forall w <- t :: IsIdentifier(w)
  {
    set n <- names | IsIdentifier(Strip(n)) :: Strip(n)
  }

  /** With nothing to brace the text stays as it is. */
  lemma {:induction false} NoTargets(s: string, ctx: Context)
    ensures Output(s, ctx, Bare({})) == s
    decreases |s|
  {
    if s != "" {
      if Span(s).Some? {
        NoTargets(s[Span(s).value..], Start);
      } else {
        NoTargets(s[FirstLen(s)..], FirstContext(s, ctx));
      }
    }
  }

  /** Up to the next span, span included. */
  lemma OutputAtSpan(s: string, seg: string, span: string, rest: string, d: Decision)
    requires s == seg + (span + rest) && NextSpan(s) == |seg|
    requires Span(span + rest) == Some(|span|) && Local(d)
    ensures Output(s, Start, d) == SegmentText(seg, Start, d) + span + Output(rest, Start, d)
  {
    RepairSegment(seg, span + rest, Start, d);
    assert (span + rest)[..|span|] == span && (span + rest)[|span|..] == rest;
  }

  lemma OutputNoSpan(s: string, d: Decision)
    requires NextSpan(s) == |s| && Local(d)
    ensures Output(s, Start, d) == SegmentText(s, Start, d)
  {
    assert s + "" == s;
    RepairSegment(s, "", Start, d);
  }

  function SpanStart(sql: string, cursor: nat): (n: nat)
    requires cursor <= |sql|
    ensures cursor <= n <= |sql|
  {
    cursor + NextSpan(sql[cursor..])
  }

  lemma SpanAt(sql: string, cursor: nat)
    requires cursor <= |sql| && SpanStart(sql, cursor) < |sql|
    ensures Span(sql[SpanStart(sql, cursor)..]).Some?
  {
    NextSpanFacts(sql[cursor..], NextSpan(sql[cursor..]));
    assert sql[cursor..][NextSpan(sql[cursor..])..] == sql[SpanStart(sql, cursor)..];
  }

  lemma OutputFrom(sql: string, cursor: nat, i: nat, n: nat, d: Decision)
    requires cursor <= i < n <= |sql| && i == SpanStart(sql, cursor)
    requires Span(sql[i..]) == Some(n - i) && Local(d)
    ensures Output(sql[cursor..], Start, d) ==
            SegmentText(sql[cursor..i], Start, d) + sql[i..n] + Output(sql[n..], Start, d)
  {
    assert sql[i..] == sql[i..n] + sql[n..];
    assert sql[cursor..] == sql[cursor..i] + (sql[i..n] + sql[n..]);
    OutputAtSpan(sql[cursor..], sql[cursor..i], sql[i..n], sql[n..], d);
  }

  /** `brace_bare_slot_refs`: the loop over the protected spans. */
  method BraceBareSlotRefs(sql: string, names: seq<string>) returns (r: string)
    ensures r == Repaired(sql, Targets(names))
  {
    var targets := Targets(names);
    if targets == {} {
      NoTargets(sql, Start);
      return sql;
    }
    r := "";
    var cursor := 0;
    assert sql[0..] == sql;
    while SpanStart(sql, cursor) < |sql|
      invariant 0 <= cursor <= |sql|
      invariant Repaired(sql, targets) == r + Output(sql[cursor..], Start, Bare(targets))
      decreases |sql| - cursor
    {
      BareIsLocal(targets);
      SpanAt(sql, cursor);
      var i := SpanStart(sql, cursor);
      var n := i + Span(sql[i..]).value;
      OutputFrom(sql, cursor, i, n, Bare(targets));
      var segment := BraceSegment(sql[cursor..i], targets);
      r := r + (segment + sql[i..n]);
      cursor := n;
    }
    BareIsLocal(targets);
    OutputNoSpan(sql[cursor..], Bare(targets));
    var segment := BraceSegment(sql[cursor..], targets);
    r := r + segment;
  }

  /** Only declared names are braced. */
  lemma {:induction false} OnlyNamesAreBraced(s: string, ctx: Context, targets: set<string>)
    ensures forall p <- Repair(s, ctx, Bare(targets)) :: p.Braced? ==> p.word in targets
    decreases |s|
  {
    if s != "" {
      if Span(s).Some? {
        OnlyNamesAreBraced(s[Span(s).value..], Start, targets);
      } else {
        OnlyNamesAreBraced(s[FirstLen(s)..], FirstContext(s, ctx), targets);
      }
    }
  }

  /** The code's test: a declared name, with nothing before it since the last span that makes it
      something else, and neither `.` nor `(` after it. */
  predicate Wanted(w: string, before: string, after: string, targets: set<string>) {
    w in targets && !BlockedBefore(RStrip(before)) && !BlockedAfter(after)
  }

  /** A maximal word: no name character follows it. */
  predicate WholeWord(w: string, after: string) {
    IsIdentifier(w) && (after == "" || !IsIdentChar(after[0]))
  }

  /** Outside spans the pieces are whole words and single characters, and a word is braced
      exactly when the code's test on the text around it says so. */
  predicate Decided(ps: seq<Piece>, before: string, targets: set<string>) {
    if ps == [] then true
    else
      var after := BareAll(ps[1..]);
      match ps[0]
      case Protected(_) => Decided(ps[1..], "", targets)
      case Braced(w) =>
        WholeWord(w, after) && Wanted(w, before, after, targets) && Decided(ps[1..], before + w, targets)
      case Plain(t) =>
        && (if IsIdentifier(t) then WholeWord(t, after) && !Wanted(t, before, after, targets) else |t| == 1)
        && Decided(ps[1..], before + t, targets)
  }

  lemma {:induction false} RepairDecides(s: string, before: string, targets: set<string>)
    requires s != "" && IsIdentChar(s[0]) ==> BetweenWords(before)
    ensures Decided(Repair(s, ContextOf(before), Bare(targets)), before, targets)
    decreases |s|
  {
    hide Span, BetweenWords, BlockedBefore, BlockedAfter, ContextOf;
    var ctx, d := ContextOf(before), Bare(targets);
    if s == "" {
    } else if Span(s).Some? {
      NothingBefore();
      RepairDecides(s[Span(s).value..], "", targets);
    } else if IsIdentStart(s[0]) {
      var n := WordLen(s);
      WordIsIdentifier(s);
      ContextWord(before, s[..n]);
      ContextDecides(before);
      BracesComeOff(s[n..], After(s[..n]), d);
      RepairDecides(s[n..], before + s[..n], targets);
    } else {
      NonWordStep(before, s[0]);
      RepairDecides(s[1..], before + [s[0]], targets);
    }
  }

  lemma NothingBefore()
    ensures ContextOf("") == Start && BetweenWords("")
  {
  }

  /** The repaired text is the input with braces put around some of its words: taking them out
      gives the input, every protected span of the input is there, unchanged and in order, and
      outside the spans exactly the unblocked declared words are braced. */
  lemma RepairedExactly(s: string, targets: set<string>) returns (ps: seq<Piece>)
    ensures ShowAll(ps) == Repaired(s, targets) && BareAll(ps) == s
    ensures ProtectedOnly(ps) == Spans(s)
    ensures Decided(ps, "", targets) && forall p <- ps :: p.Braced? ==> p.word in targets
  {
    ps := Repair(s, Start, Bare(targets));
    OutputShows(s, Start, Bare(targets));
    BracesComeOff(s, Start, Bare(targets));
    SpansAreKept(s, Start, Bare(targets));
    OnlyNamesAreBraced(s, Start, targets);
    NothingBefore();
    RepairDecides(s, "", targets);
  }
}
