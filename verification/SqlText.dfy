/**
 The lexical form of the SQL text the rule compilers emit: single spaces, words,
 punctuation, quoted literals, `{{slot}}` placeholders and backtick identifiers.
 `Render` gives the exact emitted text, `Lex` reads text back.
 */
module SqlText {
  import opened Text

  datatype Comparison = Eq | Ne | Diamond | Lt | Le | Gt | Ge

  /** The words the boolean grammar turns on. */
  datatype Keyword = KAnd | KOr | KNot | KBetween | KIn | KIs | KCmp(c: Comparison)

  function Symbol(c: Comparison): string {
    match c
    case Eq => "="
    case Ne => "!="
    case Diamond => "<>"
    case Lt => "<"
    case Le => "<="
    case Gt => ">"
    case Ge => ">="
  }

  function Spelling(k: Keyword): string {
    match k
    case KAnd => "AND"
    case KOr => "OR"
    case KNot => "NOT"
    case KBetween => "BETWEEN"
    case KIn => "IN"
    case KIs => "IS"
    case KCmp(c) => Symbol(c)
  }

  datatype Lexeme =
    | Space
    | Key(k: Keyword)
    | Word(text: string)      // a maximal run of plain characters that is no keyword
    | Punct(mark: char)
    | Str(value: string)      // a quoted literal: inner quotes doubled, backslashes as they are
    | Slot(name: string)      // {{name}}
    | Quoted(part: string)    // `part`
    | Raw(text: string)       // quoted text with a lone quote inside

  predicate IsPlain(c: char) {
    && c != '(' && c != ')' && c != ',' && c != '\'' && c != '`' && c != '{' && c != '}' && c != '\"'
    && !IsSpace(c)
  }

  /** The lexeme a run of plain characters stands for. */
  function AsWord(text: string): Lexeme {
    if text == "AND" then Key(KAnd)
    else if text == "OR" then Key(KOr)
    else if text == "NOT" then Key(KNot)
    else if text == "BETWEEN" then Key(KBetween)
    else if text == "IN" then Key(KIn)
    else if text == "IS" then Key(KIs)
    else if text == "=" then Key(KCmp(Eq))
    else if text == "!=" then Key(KCmp(Ne))
    else if text == "<>" then Key(KCmp(Diamond))
    else if text == "<" then Key(KCmp(Lt))
    else if text == "<=" then Key(KCmp(Le))
    else if text == ">" then Key(KCmp(Gt))
    else if text == ">=" then Key(KCmp(Ge))
    else Word(text)
  }

  lemma AsWordSpelling(k: Keyword)
    ensures AsWord(Spelling(k)) == Key(k)
    ensures Spelling(k) != "" && forall c <- Spelling(k) :: IsPlain(c)
  {
  }

  /** Doubles every single quote, as `_quote` does. */
  function DoubleQuotes(v: string): string {
    if v == "" then "" else (if v[0] == '\'' then "''" else [v[0]]) + DoubleQuotes(v[1..])
  }

  function Show(l: Lexeme): string {
    match l
    case Space => " "
    case Key(k) => Spelling(k)
    case Word(text) => text
    case Punct(mark) => [mark]
    case Str(value) => "'" + DoubleQuotes(value) + "'"
    case Slot(name) => "{{" + name + "}}"
    case Quoted(part) => "`" + part + "`"
    case Raw(text) => text
  }

  function Render(ls: seq<Lexeme>): string {
    if ls == [] then "" else Show(ls[0]) + Render(ls[1..])
  }

  lemma {:induction false} RenderAppend(a: seq<Lexeme>, b: seq<Lexeme>)
    ensures Render(a + b) == Render(a) + Render(b)
  {
    if a == [] {
      assert a + b == b;
    } else {
      assert (a + b)[1..] == a[1..] + b;
      RenderAppend(a[1..], b);
    }
  }

  lemma RenderOne(l: Lexeme)
    ensures Render([l]) == Show(l)
  {
  }

  // ----- reading a literal back -----

  /** Reads a literal whose opening quote is already consumed: undoes doubled quotes, keeps a
      backslash together with the character after it, and stops after the first quote that is
      neither. */
  function ReadLiteral(s: string): (r: Option<(string, nat)>)
    ensures r.Some? ==> 0 < r.value.1 <= |s|
  {
    if s == "" || s == "\\" then None
    else if s[0] == '\\' then Longer(s[..2], 2, ReadLiteral(s[2..]))
    else if s[0] != '\'' then Longer(s[..1], 1, ReadLiteral(s[1..]))
    else if |s| > 1 && s[1] == '\'' then Longer("'", 2, ReadLiteral(s[2..]))
    else Some(("", 1))
  }

  /** `head` was read before the rest, from `taken` characters. */
  function Longer(head: string, taken: nat, rest: Option<(string, nat)>): Option<(string, nat)> {
    if rest.None? then None else Some((head + rest.value.0, taken + rest.value.1))
  }

  /** No backslash of the value takes a quote with it, neither one of its own nor the closing one. */
  predicate Sealed(v: string) {
    if v == "" then true
    else if v[0] != '\\' then Sealed(v[1..])
    else |v| > 1 && v[1] != '\'' && Sealed(v[2..])
  }

  lemma ReadEscape(c: char, tail: string)
    ensures ReadLiteral(['\\', c] + tail) == Longer(['\\', c], 2, ReadLiteral(tail))
  {
    var s := ['\\', c] + tail;
    assert s[..2] == ['\\', c] && s[2..] == tail;
  }

  lemma ReadPlain(c: char, tail: string)
    requires c != '\\' && c != '\''
    ensures ReadLiteral([c] + tail) == Longer([c], 1, ReadLiteral(tail))
  {
    var s := [c] + tail;
    assert s[..1] == [c] && s[1..] == tail;
  }

  lemma ReadDoubled(tail: string)
    ensures ReadLiteral("''" + tail) == Longer("'", 2, ReadLiteral(tail))
  {
    assert ("''" + tail)[2..] == tail;
  }

  lemma ReadEnd(rest: string)
    requires rest == "" || rest[0] != '\''
    ensures ReadLiteral("'" + rest) == Some(("", 1))
  {
    var s := "'" + rest;
    assert s[0] == '\'' && (|s| > 1 ==> s[1] == rest[0]);
  }

  /** The value's first character, as written. */
  lemma WrittenChar(v: string, end: string)
    requires v != ""
    ensures var head := if v[0] == '\'' then "''" else [v[0]];
            && DoubleQuotes(v) + end == head + (DoubleQuotes(v[1..]) + end)
            && |DoubleQuotes(v)| == |head| + |DoubleQuotes(v[1..])|
  {
    Regroup(if v[0] == '\'' then "''" else [v[0]], DoubleQuotes(v[1..]), end);
  }

  /** A backslash and the character after it, as written. */
  lemma WrittenPair(v: string, end: string)
    requires |v| > 1 && v[0] == '\\'
    ensures var written := DoubleQuotes(v) + end;
            var later := DoubleQuotes(v[2..]) + end;
            && written == ['\\', v[1]] + (if v[1] == '\'' then "'" + later else later)
            && |DoubleQuotes(v)| == |DoubleQuotes(v[2..])| + if v[1] == '\'' then 3 else 2
  {
    var rest := v[1..];
    assert rest[0] == v[1] && rest[1..] == v[2..];
    WrittenChar(v, end);
    WrittenChar(rest, end);
  }

  lemma {:induction false} SealedReads(v: string, rest: string)
    requires Sealed(v) && (rest == "" || rest[0] != '\'')
    ensures ReadLiteral(DoubleQuotes(v) + ("'" + rest)) == Some((v, |DoubleQuotes(v)| + 1))
  {
    hide ReadLiteral, DoubleQuotes;
    var end := "'" + rest;
    if v == "" {
      ReadEnd(rest);
      NothingWritten(end);
    } else if v[0] != '\\' {
      SealedReads(v[1..], rest);
      WrittenChar(v, end);
      if v[0] == '\'' {
        ReadDoubled(DoubleQuotes(v[1..]) + end);
      } else {
        ReadPlain(v[0], DoubleQuotes(v[1..]) + end);
      }
      assert v == [v[0]] + v[1..];
    } else {
      SealedReads(v[2..], rest);
      WrittenPair(v, end);
      ReadEscape(v[1], DoubleQuotes(v[2..]) + end);
      assert v == ['\\', v[1]] + v[2..];
    }
  }

  lemma NothingWritten(end: string)
    ensures DoubleQuotes("") + end == end && |DoubleQuotes("")| == 0
  {
  }

  /** A literal read is neither `v` nor ends after `n` characters. */
  predicate Misses(r: Option<(string, nat)>, v: string, n: nat) {
    r.Some? ==> r.value.0 != v && r.value.1 != n
  }

  lemma LongerMisses(head: string, taken: nat, r: Option<(string, nat)>, v: string, n: nat)
    requires Misses(r, v, n)
    ensures Misses(Longer(head, taken, r), head + v, taken + n)
  {
    if r.Some? {
      assert (head + r.value.0)[|head|..] == r.value.0 && (head + v)[|head|..] == v;
    }
  }

  /** After a backslash took one of two quotes the other one pairs up wrongly for good. */
  lemma {:induction false} ShiftedMisses(w: string, rest: string)
    requires rest == "" || rest[0] != '\''
    ensures Misses(ReadLiteral("'" + (DoubleQuotes(w) + ("'" + rest))), w, |DoubleQuotes(w)| + 2)
  {
    hide ReadLiteral, DoubleQuotes;
    var end := "'" + rest;
    if w == "" {
      NothingWritten(end);
      assert "'" + end == "''" + rest;
      ReadDoubled(rest);
    } else {
      var later := DoubleQuotes(w[1..]) + end;
      WrittenChar(w, end);
      if w[0] == '\'' {
        hide Longer, Misses;
        ShiftedMisses(w[1..], rest);
        assert "'" + ("''" + later) == "''" + ("'" + later);
        ReadDoubled("'" + later);
        LongerMisses("'", 2, ReadLiteral("'" + later), w[1..], |DoubleQuotes(w[1..])| + 2);
        assert w == "'" + w[1..];
      } else {
        ReadEnd([w[0]] + later);
      }
    }
  }

  /** The closing quote of the literal of a lone backslash is taken. */
  lemma LoneBackslashMisses(rest: string)
    ensures Misses(ReadLiteral(DoubleQuotes("\\") + ("'" + rest)), "\\", |DoubleQuotes("\\")| + 1)
  {
    assert DoubleQuotes("\\") == "\\" && "\\" + ("'" + rest) == ['\\', '\''] + rest;
    ReadEscape('\'', rest);
  }

  lemma {:induction false} UnsealedMisses(v: string, rest: string)
    requires !Sealed(v) && (rest == "" || rest[0] != '\'')
    ensures Misses(ReadLiteral(DoubleQuotes(v) + ("'" + rest)), v, |DoubleQuotes(v)| + 1)
  {
    hide ReadLiteral, DoubleQuotes, Longer, Misses;
    var end := "'" + rest;
    if v[0] != '\\' {
      var later := DoubleQuotes(v[1..]) + end;
      UnsealedMisses(v[1..], rest);
      WrittenChar(v, end);
      if v[0] == '\'' {
        ReadDoubled(later);
      } else {
        ReadPlain(v[0], later);
      }
      LongerMisses([v[0]], if v[0] == '\'' then 2 else 1, ReadLiteral(later), v[1..], |DoubleQuotes(v[1..])| + 1);
      assert v == [v[0]] + v[1..];
    } else if |v| == 1 {
      LoneBackslashMisses(rest);
      assert v == "\\";
    } else {
      var later := DoubleQuotes(v[2..]) + end;
      WrittenPair(v, end);
      if v[1] == '\'' {
        ShiftedMisses(v[2..], rest);
        ReadEscape('\'', "'" + later);
        LongerMisses(['\\', '\''], 2, ReadLiteral("'" + later), v[2..], |DoubleQuotes(v[2..])| + 2);
      } else {
        UnsealedMisses(v[2..], rest);
        ReadEscape(v[1], later);
        LongerMisses(['\\', v[1]], 2, ReadLiteral(later), v[2..], |DoubleQuotes(v[2..])| + 1);
      }
      assert v == ['\\', v[1]] + v[2..];
    }
  }

  lemma {:induction false} NoQuoteNeverCloses(s: string)
    requires '\'' !in s
    ensures ReadLiteral(s) == None
  {
    if s != "" && s != "\\" {
      NoQuoteNeverCloses(s[if s[0] == '\\' then 2 else 1..]);
    }
  }

  /** Without another quote to take its place a taken closing quote leaves the literal open. */
  lemma {:induction false} UnsealedNeverCloses(v: string, rest: string)
    requires !Sealed(v) && '\'' !in v && '\'' !in rest
    ensures ReadLiteral(v + ("'" + rest)) == None
  {
    var end := "'" + rest;
    assert v[0] in v;
    if v[0] != '\\' {
      UnsealedNeverCloses(v[1..], rest);
      assert v + end == [v[0]] + (v[1..] + end);
      ReadPlain(v[0], v[1..] + end);
    } else if |v| == 1 {
      NoQuoteNeverCloses(rest);
      assert v + end == ['\\', '\''] + rest;
      ReadEscape('\'', rest);
    } else {
      assert v[1] in v;
      UnsealedNeverCloses(v[2..], rest);
      assert v + end == ['\\', v[1]] + (v[2..] + end);
      ReadEscape(v[1], v[2..] + end);
    }
  }

  lemma {:induction false} NothingDoubled(v: string)
    requires '\'' !in v
    ensures DoubleQuotes(v) == v
  {
    if v != "" {
      assert v[0] in v && v == [v[0]] + v[1..];
      NothingDoubled(v[1..]);
    }
  }

  /** The literal of a value ends at its own closing quote exactly when the value is sealed, and
      exactly then the reader finds the value again. */
  lemma LiteralReadsBackIff(v: string, rest: string)
    requires rest == "" || rest[0] != '\''
    ensures var r := ReadLiteral(DoubleQuotes(v) + ("'" + rest));
            && (Sealed(v) <==> r.Some? && r.value.1 == |DoubleQuotes(v)| + 1)
            && (Sealed(v) <==> r.Some? && r.value.0 == v)
  {
    if Sealed(v) {
      SealedReads(v, rest);
    } else {
      UnsealedMisses(v, rest);
    }
  }

  // ----- what a read literal stands for -----

  /** Every backslash and the character after it stand for one character. */
  function Unescaped(v: string, unescape: char -> char): string {
    if v == "" then ""
    else if v[0] == '\\' && |v| > 1 then [unescape(v[1])] + Unescaped(v[2..], unescape)
    else [v[0]] + Unescaped(v[1..], unescape)
  }

  lemma {:induction false} UnescapedIs(v: string, unescape: char -> char)
    ensures |Unescaped(v, unescape)| <= |v|
    ensures '\\' !in v ==> Unescaped(v, unescape) == v
    ensures '\\' in v && Sealed(v) ==> |Unescaped(v, unescape)| < |v|
  {
    if v != "" {
      if v[0] == '\\' && |v| > 1 {
        UnescapedIs(v[2..], unescape);
      } else {
        UnescapedIs(v[1..], unescape);
        assert v == [v[0]] + v[1..];
      }
    }
  }

  lemma {:induction false} NoBackslashSeals(v: string)
    requires '\\' !in v
    ensures Sealed(v)
  {
    if v != "" {
      NoBackslashSeals(v[1..]);
    }
  }

  /** The literal closes and stands for the value itself exactly when the value has no backslash,
      whatever character a backslash and its follower stand for. */
  lemma LiteralStandsForIff(v: string, rest: string, unescape: char -> char)
    requires rest == "" || rest[0] != '\''
    ensures var r := ReadLiteral(DoubleQuotes(v) + ("'" + rest));
            r.Some? && r.value.1 == |DoubleQuotes(v)| + 1 && Unescaped(r.value.0, unescape) == v
            <==> '\\' !in v
  {
    LiteralReadsBackIff(v, rest);
    UnescapedIs(v, unescape);
    if '\\' !in v {
      NoBackslashSeals(v);
    }
  }

  // ----- the lexer -----

  /** Position of the first `}}`. */
  function FindClose(s: string): (r: Option<nat>)
    ensures r.Some? ==> r.value + 2 <= |s|
  {
    if |s| < 2 then None
    else if s[0] == '}' && s[1] == '}' then Some(0)
    else
      var n :- FindClose(s[1..]);
      Some(n + 1)
  }

  function PlainLen(s: string): (n: nat)
    ensures n <= |s|
  {
    if s != "" && IsPlain(s[0]) then 1 + PlainLen(s[1..]) else 0
  }

  predicate IsSlotOpen(s: string) {
    |s| >= 2 && s[0] == '{' && s[1] == '{'
  }

  /** The first lexeme of a non-empty text and how many characters it takes. */
  function LexOne(s: string): (r: (Lexeme, nat))
    requires s != ""
    ensures 0 < r.1 <= |s|
  {
    if s[0] == ' ' then (Space, 1)
    else if s[0] == '\'' && ReadLiteral(s[1..]).Some? then
      var lit := ReadLiteral(s[1..]).value;
      (Str(lit.0), lit.1 + 1)
    else if IsSlotOpen(s) && FindClose(s[2..]).Some? then
      var n := FindClose(s[2..]).value;
      (Slot(s[2..n + 2]), n + 4)
    else if s[0] == '`' && FindChar(s[1..], '`').Some? then
      var n := FindChar(s[1..], '`').value;
      (Quoted(s[1..n + 1]), n + 2)
    else if IsPlain(s[0]) then
      (AsWord(s[..PlainLen(s)]), PlainLen(s))
    else (Punct(s[0]), 1)
  }

  function Lex(s: string): seq<Lexeme> {
    if s == "" then []
    else
      var (l, n) := LexOne(s);
      [l] + Lex(s[n..])
  }

  // ----- what reads back -----

  /** The first `}}` after the opening braces is the closing one. */
  predicate Enclosed(name: string) {
    FindClose(name + "}}") == Some(|name|)
  }

  /** A lexeme that is written in its lexical form; what is quoted or braced may still break out. */
  predicate Lexable(l: Lexeme) {
    match l
    case Space => true
    case Key(_) => true
    case Word(text) => text != "" && AsWord(text) == Word(text) && forall c <- text :: IsPlain(c)
    case Punct(mark) => mark == '(' || mark == ')' || mark == ','
    case Str(_) => true
    case Slot(_) => true
    case Quoted(part) => '`' !in part
    case Raw(text) => text != "" && text[0] == '\''
  }

  /** A lexeme that ends where it should: no backslash of a literal takes a quote, the first `}}` of
      a placeholder is the closing one, and quoted text has no lone quote inside. */
  predicate Legible(l: Lexeme) {
    match l
    case Str(value) => Sealed(value)
    case Slot(name) => Enclosed(name)
    case Raw(_) => false
    case _ => true
  }

  predicate AllLegible(ls: seq<Lexeme>) {
    forall l <- ls :: Legible(l)
  }

  lemma IdentWord(w: string)
    requires IsIdentifier(w) && AsWord(w) == Word(w)
    ensures Lexable(Word(w))
  {
    assert forall c <- w :: IsPlain(c);
  }

  predicate IsWord(l: Lexeme) {
    l.Word? || l.Key?
  }

  predicate InQuotes(l: Lexeme) {
    l.Str? || l.Raw?
  }

  /** Neighbours that stay apart when written side by side. */
  predicate Apart(a: Lexeme, b: Lexeme) {
    !(IsWord(a) && IsWord(b)) && !(InQuotes(a) && InQuotes(b))
  }

  predicate WellSpaced(ls: seq<Lexeme>) {
    && (forall l <- ls :: Lexable(l))
    && (forall i :: 0 < i < |ls| ==> Apart(ls[i - 1], ls[i]))
  }

  lemma {:induction false} PlainLenPrefix(w: string, rest: string)
    requires forall c <- w :: IsPlain(c)
    requires rest == "" || !IsPlain(rest[0])
    ensures PlainLen(w + rest) == |w|
  {
    if w == "" {
      assert w + rest == rest;
    } else {
      assert (w + rest)[1..] == w[1..] + rest;
      PlainLenPrefix(w[1..], rest);
    }
  }

  lemma {:induction false} FindClosePrefix(name: string, rest: string)
    requires '}' !in name
    ensures FindClose(name + "}}" + rest) == Some(|name|)
  {
    var s := name + "}}" + rest;
    if name != "" {
      assert s[1..] == name[1..] + "}}" + rest;
      FindClosePrefix(name[1..], rest);
      assert s[0] == name[0];
    }
  }

  lemma NoBraceEncloses(name: string)
    requires '}' !in name
    ensures Enclosed(name)
  {
    FindClosePrefix(name, "");
    assert name + "}}" + "" == name + "}}";
  }

  /** Where the first `}}` is does not depend on what follows it. */
  lemma {:induction false} FindCloseStable(a: string, x: string, y: string)
    requires FindClose(a + x).Some? && FindClose(a + x).value + 2 <= |a|
    ensures FindClose(a + y) == FindClose(a + x)
  {
    var s, t := a + x, a + y;
    if !(s[0] == '}' && s[1] == '}') {
      assert s[1..] == a[1..] + x && t[1..] == a[1..] + y;
      FindCloseStable(a[1..], x, y);
    }
  }

  lemma {:induction false} FindCharPrefix(name: string, c: char, rest: string)
    requires c !in name
    ensures FindChar(name + [c] + rest, c) == Some(|name|)
  {
    var s := name + [c] + rest;
    if name != "" {
      assert s[1..] == name[1..] + [c] + rest;
      FindCharPrefix(name[1..], c, rest);
      assert s[0] == name[0];
    }
  }

  /** How a written lexeme begins. */
  lemma ShowStart(l: Lexeme)
    requires Lexable(l)
    ensures Show(l) != ""
    ensures Show(l)[0] == '\'' <==> InQuotes(l)
    ensures IsPlain(Show(l)[0]) <==> IsWord(l)
  {
    match l
    case Word(text) => assert IsPlain(text[0]);
    case Key(k) => AsWordSpelling(k);
    case Str(value) => assert Show(l)[0] == '\'';
    case Slot(name) => assert Show(l)[0] == '{';
    case Quoted(part) => assert Show(l)[0] == '`';
    case _ =>
  }

  lemma LexWord(text: string, rest: string)
    requires text != "" && (forall c <- text :: IsPlain(c)) && (rest == "" || !IsPlain(rest[0]))
    ensures LexOne(text + rest) == (AsWord(text), |text|)
  {
    var s := text + rest;
    PlainLenPrefix(text, rest);
    assert s[0] == text[0] && IsPlain(text[0]);
    assert s[..|text|] == text;
  }

  lemma LexStr(value: string, rest: string)
    requires rest == "" || rest[0] != '\''
    ensures Sealed(value) ==> LexOne(Show(Str(value)) + rest) == (Str(value), |Show(Str(value))|)
    ensures !Sealed(value) ==> LexOne(Show(Str(value)) + rest).0 != Str(value)
  {
    hide AsWord, PlainLen, FindClose, DoubleQuotes, ReadLiteral, IsSpace, Sealed;
    var tail := DoubleQuotes(value) + ("'" + rest);
    LiteralReadsBackIff(value, rest);
    assert Show(Str(value)) + rest == "'" + tail;
    assert ("'" + tail)[1..] == tail;
  }

  lemma {:induction false} FindCloseSome(name: string)
    ensures FindClose(name + "}}").Some?
  {
    var s := name + "}}";
    if name != "" && !(s[0] == '}' && s[1] == '}') {
      assert s[1..] == name[1..] + "}}";
      FindCloseSome(name[1..]);
    }
  }

  lemma LexSlot(name: string, rest: string)
    ensures Enclosed(name) ==> LexOne(Show(Slot(name)) + rest) == (Slot(name), |name| + 4)
    ensures !Enclosed(name) ==> LexOne(Show(Slot(name)) + rest).0 != Slot(name)
  {
    hide FindClose, ReadLiteral, PlainLen, AsWord;
    var s := Show(Slot(name)) + rest;
    FindCloseSome(name);
    assert name + "}}" + "" == name + "}}";
    FindCloseStable(name + "}}", "", rest);
    assert s[0] == '{' && s[1] == '{';
    assert s[2..] == name + "}}" + rest;
    assert s[2..|name| + 2] == name;
    assert LexOne(s).0 == Slot(s[2..FindClose(s[2..]).value + 2]);
  }

  lemma LexQuoted(part: string, rest: string)
    requires '`' !in part
    ensures LexOne(Show(Quoted(part)) + rest) == (Quoted(part), |part| + 2)
  {
    var s := Show(Quoted(part)) + rest;
    FindCharPrefix(part, '`', rest);
    assert s[0] == '`';
    assert s[1..] == part + ['`'] + rest;
    assert s[1..|part| + 1] == part;
  }

  lemma NeverRaw(s: string)
    requires s != ""
    ensures !LexOne(s).0.Raw?
  {
  }

  /** One written lexeme is read as that lexeme exactly when it is legible, when what follows cannot extend it. */
  lemma LexOneShow(l: Lexeme, rest: string)
    requires Lexable(l)
    requires IsWord(l) ==> rest == "" || !IsPlain(rest[0])
    requires l.Str? ==> rest == "" || rest[0] != '\''
    ensures Legible(l) ==> LexOne(Show(l) + rest) == (l, |Show(l)|)
    ensures !Legible(l) ==> LexOne(Show(l) + rest).0 != l
  {
    match l
    case Space =>
    case Punct(mark) =>
    case Word(text) => LexWord(text, rest);
    case Key(k) =>
      AsWordSpelling(k);
      LexWord(Spelling(k), rest);
    case Str(value) => LexStr(value, rest);
    case Slot(name) => LexSlot(name, rest);
    case Quoted(part) => LexQuoted(part, rest);
    case Raw(_) => NeverRaw(Show(l) + rest);
  }

  lemma WellSpacedTail(ls: seq<Lexeme>)
    requires WellSpaced(ls) && ls != []
    ensures WellSpaced(ls[1..])
    ensures Render(ls) == Show(ls[0]) + Render(ls[1..])
    ensures ls[1..] == [] ==> Render(ls[1..]) == ""
    ensures ls[1..] != [] ==> Apart(ls[0], ls[1]) && Lexable(ls[1]) && Render(ls[1..]) != ""
                              && Render(ls[1..])[0] == Show(ls[1])[0]
  {
    var rest := ls[1..];
    assert forall i :: 0 < i < |rest| ==> rest[i - 1] == ls[i] && rest[i] == ls[i + 1];
    if rest != [] {
      ShowStart(rest[0]);
    }
  }

  /** Printing then lexing a well spaced sequence gives it back exactly when it is legible. */
  lemma {:induction false} LexRenderIff(ls: seq<Lexeme>)
    requires WellSpaced(ls)
    ensures Lex(Render(ls)) == ls <==> AllLegible(ls)
  {
    hide Lexable, Legible, Apart, LexOne, Show, IsPlain, Render;
    if ls != [] {
      var text := Render(ls[1..]);
      WellSpacedTail(ls);
      FirstLexeme(ls);
      LexRenderIff(ls[1..]);
      assert ls == [ls[0]] + ls[1..];
      if Legible(ls[0]) {
        assert (Show(ls[0]) + text)[|Show(ls[0])|..] == text;
      }
    } else {
      NothingLexed();
    }
  }

  lemma NothingLexed()
    ensures Lex(Render([])) == []
  {
  }

  /** The first lexeme is read as itself exactly when it is legible. */
  lemma FirstLexeme(ls: seq<Lexeme>)
    requires WellSpaced(ls) && ls != []
    ensures Render(ls) != ""
    ensures Legible(ls[0]) ==> LexOne(Render(ls)) == (ls[0], |Show(ls[0])|)
    ensures !Legible(ls[0]) ==> LexOne(Render(ls)).0 != ls[0]
  {
    hide LexOne, Legible, IsPlain, Render, Show;
    WellSpacedTail(ls);
    ShowStart(ls[0]);
    if ls[1..] != [] {
      ShowStart(ls[1]);
    }
    LexOneShow(ls[0], Render(ls[1..]));
  }

  lemma LexRender(ls: seq<Lexeme>)
    requires WellSpaced(ls) && AllLegible(ls)
    ensures Lex(Render(ls)) == ls
  {
    LexRenderIff(ls);
  }

  /** Lexemes ending in a space are read first, whatever follows. */
  lemma {:induction false} LexOnward(ls: seq<Lexeme>, rest: string)
    requires WellSpaced(ls) && AllLegible(ls) && (ls != [] ==> ls[|ls| - 1].Space?)
    ensures Lex(Render(ls) + rest) == ls + Lex(rest)
  {
    hide Lexable, Legible, Apart, LexOne, Show, IsPlain, Render;
    if ls == [] {
      NothingLexed();
      assert Render(ls) + rest == rest;
    } else {
      var text := Render(ls[1..]) + rest;
      WellSpacedTail(ls);
      LexOnward(ls[1..], rest);
      ShowStart(ls[0]);
      if ls[1..] != [] {
        ShowStart(ls[1]);
        assert text[0] == Render(ls[1..])[0];
      }
      LexOneShow(ls[0], text);
      assert Render(ls) + rest == Show(ls[0]) + text;
      assert (Show(ls[0]) + text)[|Show(ls[0])|..] == text;
      assert ls + Lex(rest) == [ls[0]] + (ls[1..] + Lex(rest));
    }
  }

  /** Text joined by a space or a punctuation mark stays well spaced. */
  lemma WellSpacedJoin(a: seq<Lexeme>, sep: Lexeme, b: seq<Lexeme>)
    requires WellSpaced(a) && WellSpaced(b)
    requires Lexable(sep) && (sep.Space? || sep.Punct?)
    ensures WellSpaced(a + [sep] + b)
  {
    var ls := a + [sep] + b;
    forall i | 0 < i < |ls|
      ensures Apart(ls[i - 1], ls[i])
    {
      if i > |a| + 1 {
        assert ls[i - 1] == b[i - |a| - 2] && ls[i] == b[i - |a| - 1];
      }
    }
  }
}
