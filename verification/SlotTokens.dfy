/**
 The `{{slot}}` scanner over emitted SQL, and the two ways a predicate is emitted:
 with and without the input-view qualifier.
 */
module SlotTokens {
  import opened Text
  import opened SqlText
  import opened LowcodeRows

  // ----- the token pattern: {{, white space, a lazy group, white space, }} -----

  /** White space and then `}}`: how many characters. */
  function CloseAfter(s: string): Option<nat> {
    if s == "" then None
    else if IsSpace(s[0]) then
      var n :- CloseAfter(s[1..]);
      Some(n + 1)
    else if |s| >= 2 && s[0] == '}' && s[1] == '}' then Some(2)
    else None
  }

  /** The shortest group at the start of `s`: at least one character, on one line,
      closed after it. */
  function LazyGroup(s: string): (r: Option<nat>)
    ensures r.Some? ==> 0 < r.value <= |s| && CloseAfter(s[r.value..]).Some?
  {
    if s == "" || s[0] == '\n' then None
    else if CloseAfter(s[1..]).Some? then Some(1)
    else
      var n :- LazyGroup(s[1..]);
      Some(n + 1)
  }

  function LeadingSpaces(s: string): (n: nat)
    ensures n <= |s|
  {
    if s != "" && IsSpace(s[0]) then 1 + LeadingSpaces(s[1..]) else 0
  }

  /** Skips as much white space as it can, giving characters back while no group fits. */
  function MatchAfter(s: string, k: nat): (r: Option<(string, nat)>)
    requires k <= |s|
    ensures r.Some? ==> r.value.1 <= |s|
  {
    match LazyGroup(s[k..])
    case Some(n) =>
      CloseAfterBound(s[k + n..]);
      assert s[k..][n..] == s[k + n..];
      Some((s[k..k + n], k + n + CloseAfter(s[k + n..]).value))
    case None => if k == 0 then None else MatchAfter(s, k - 1)
  }

  lemma {:induction false} CloseAfterBound(s: string)
    ensures CloseAfter(s).Some? ==> CloseAfter(s).value <= |s|
  {
    if s != "" {
      CloseAfterBound(s[1..]);
    }
  }

  /** A match at the start of `s`: its group and its length. */
  function MatchToken(s: string): (r: Option<(string, nat)>)
    ensures r.Some? ==> 2 <= r.value.1 <= |s|
  {
    if !IsSlotOpen(s) then None
    else
      var m :- MatchAfter(s[2..], LeadingSpaces(s[2..]));
      Some((m.0, m.1 + 2))
  }

  /** The stripped group of every match, left to right. */
  function TokenNames(s: string): seq<string> {
    if s == "" then []
    else match MatchToken(s)
         case Some(m) => [Strip(m.0)] + TokenNames(s[m.1..])
         case None => TokenNames(s[1..])
  }

  // ----- collecting names -----

  predicate Reserved(name: string) {
    name == "" || name == INPUT_VIEW
  }

  /** Appends the names not yet there, reserved ones left out. */
  function Collect(seen: seq<string>, names: seq<string>): seq<string>
    decreases |names|
  {
    if names == [] then seen else Collect(AddName(seen, names[0]), names[1..])
  }

  function AddName(seen: seq<string>, name: string): seq<string> {
    if Reserved(name) || name in seen then seen else seen + [name]
  }

  function NamesOf(fragments: seq<Option<string>>): seq<string> {
    if fragments == [] then []
    else (if fragments[0].Some? then TokenNames(fragments[0].value) else []) + NamesOf(fragments[1..])
  }

  lemma {:induction false} CollectAppend(seen: seq<string>, a: seq<string>, b: seq<string>)
    ensures Collect(seen, a + b) == Collect(Collect(seen, a), b)
    decreases |a|
  {
    if a == [] {
      assert a + b == b;
    } else {
      assert (a + b)[1..] == a[1..] + b;
      CollectAppend(AddName(seen, a[0]), a[1..], b);
    }
  }

  /** The result lists each unreserved name once, in order of first appearance. */
  lemma {:induction false} CollectIsDistinct(seen: seq<string>, names: seq<string>)
    requires forall i, j :: 0 <= i < j < |seen| ==> seen[i] != seen[j]
    ensures var r := Collect(seen, names);
            && seen <= r
            && (forall i, j :: 0 <= i < j < |r| ==> r[i] != r[j])
            && (forall n :: n in r <==> n in seen || (n in names && n != "" && n != "input_view"))
    decreases |names|
  {
    if names != [] {
      CollectIsDistinct(AddName(seen, names[0]), names[1..]);
      assert forall n :: n in names <==> n == names[0] || n in names[1..];
    }
  }

  /** More names only add at the end. */
  lemma CollectGrows(a: seq<string>, b: seq<string>)
    ensures Collect([], a) <= Collect([], a + b)
  {
    CollectAppend([], a, b);
    CollectIsDistinct([], a);
    CollectIsDistinct(Collect([], a), b);
  }

  lemma {:induction false} NamesAppend(a: seq<Option<string>>, b: seq<Option<string>>)
    ensures NamesOf(a + b) == NamesOf(a) + NamesOf(b)
  {
    hide TokenNames;
    if a == [] {
      assert a + b == b;
    } else {
      assert (a + b)[1..] == a[1..] + b;
      NamesAppend(a[1..], b);
    }
  }

  /** The names of several fragments are those of each in turn; a missing fragment has none. */
  lemma NamesInOrder(a: seq<Option<string>>, fragment: string, b: seq<Option<string>>)
    ensures NamesOf(a + [Some(fragment)] + b) == NamesOf(a) + TokenNames(fragment) + NamesOf(b)
    ensures NamesOf(a + [None] + b) == NamesOf(a) + NamesOf(b)
  {
    OneFragment(fragment);
    hide NamesOf, TokenNames;
    NamesAppend(a + [Some(fragment)], b);
    NamesAppend(a, [Some(fragment)]);
    NamesAppend(a + [None], b);
    NamesAppend(a, [None]);
  }

  lemma OneFragment(fragment: string)
    ensures NamesOf([Some(fragment)]) == TokenNames(fragment) && NamesOf([None]) == []
  {
    hide TokenNames;
    assert [Some(fragment)][1..] == [];
  }

  /** The matches of one fragment. */
  method ScanFragment(fragment: string, seen0: set<string>, out0: seq<string>)
    returns (seen: set<string>, out: seq<string>)
    requires seen0 == set n | n in out0
    ensures seen == set n | n in out
    ensures out == Collect(out0, TokenNames(fragment))
  {
    seen, out := seen0, out0;
    var rest := fragment;
    while rest != ""
      invariant seen == set n | n in out
      invariant Collect(out0, TokenNames(fragment)) == Collect(out, TokenNames(rest))
      decreases |rest|
    {
      var m := MatchToken(rest);
      if m.None? {
        rest := rest[1..];
        continue;
      }
      var name := Strip(m.value.0);
      rest := rest[m.value.1..];
      if name == "" || name == INPUT_VIEW || name in seen {
        continue;
      }
      seen := seen + {name};
      out := out + [name];
    }
  }

  /** `extract_slot_tokens` */
  method ExtractSlotTokens(fragments: seq<Option<string>>) returns (out: seq<string>)
    ensures out == Collect([], NamesOf(fragments))
  {
    var seen: set<string> := {};
    out := [];
    for i := 0 to |fragments|
      invariant seen == set n | n in out
      invariant Collect([], NamesOf(fragments)) == Collect(out, NamesOf(fragments[i..]))
    {
      assert fragments[i..][1..] == fragments[i + 1..];
      if fragments[i].Some? && fragments[i].value != "" {
        CollectAppend(out, TokenNames(fragments[i].value), NamesOf(fragments[i + 1..]));
        seen, out := ScanFragment(fragments[i].value, seen, out);
      } else {
        assert NamesOf(fragments[i..]) == NamesOf(fragments[i + 1..]);
      }
    }
  }

  // ----- scanning emitted text -----

  function SlotNames(ls: Lexemes): seq<string> {
    if ls == [] then []
    else (if ls[0].Slot? then [ls[0].name] else []) + SlotNames(ls[1..])
  }

  predicate NoOpening(s: string) {
    |s| < 2 || (!IsSlotOpen(s) && NoOpening(s[1..]))
  }

  /** No opening brace at the end that could join one after it. */
  predicate EndsClean(s: string) {
    s == "" || s[|s| - 1] != '{'
  }

  /** A lexeme the scanner sees as written: slots are identifiers, literals hold no `{{`. */
  predicate Scannable(l: Lexeme) {
    match l
    case Slot(name) => IsIdentifier(name)
    case Str(value) => NoOpening(value)
    case Quoted(part) => NoOpening(part)
    case Raw(text) => NoOpening(text) && EndsClean(text)
    case _ => Lexable(l)
  }

  predicate AllScannable(ls: Lexemes) {
    forall l <- ls :: Scannable(l)
  }

  lemma {:induction false} SkipPlain(a: string, b: string)
    requires NoOpening(a) && EndsClean(a)
    ensures TokenNames(a + b) == TokenNames(b)
  {
    if a == "" {
      assert a + b == b;
    } else {
      assert (a + b)[1..] == a[1..] + b;
      assert !IsSlotOpen(a + b);
      SkipPlain(a[1..], b);
    }
  }

  lemma {:induction false} NoOpeningAppend(a: string, b: string)
    requires NoOpening(a) && NoOpening(b) && EndsClean(a)
    ensures NoOpening(a + b)
  {
    if a == "" {
      assert a + b == b;
    } else {
      assert (a + b)[1..] == a[1..] + b;
      NoOpeningAppend(a[1..], b);
    }
  }

  lemma {:induction false} PlainHasNoOpening(w: string)
    requires forall c <- w :: c != '{'
    ensures NoOpening(w) && EndsClean(w)
  {
    if w != "" {
      PlainHasNoOpening(w[1..]);
      assert w[|w| - 1] in w;
    }
  }

  lemma {:induction false} LazyIdentifier(name: string, b: string)
    requires name != "" && forall c <- name :: IsIdentChar(c)
    ensures LazyGroup(name + "}}" + b) == Some(|name|)
  {
    var s := name + "}}" + b;
    assert s[1..] == name[1..] + "}}" + b;
    assert IsIdentChar(name[0]);
    if |name| == 1 {
      assert s[1..] == "}}" + b;
    } else {
      assert IsIdentChar(s[1]) by {
        assert name[1] in name;
      }
      LazyIdentifier(name[1..], b);
    }
  }

  lemma GroupMatches(name: string, b: string)
    requires IsIdentifier(name)
    ensures MatchAfter(name + "}}" + b, 0) == Some((name, |name| + 2))
    ensures LeadingSpaces(name + "}}" + b) == 0
  {
    var t := name + "}}" + b;
    assert t[0] == name[0] && t[0..] == t;
    LazyIdentifier(name, b);
    assert t[|name|..] == "}}" + b && t[0..|name|] == name;
  }

  lemma SlotMatches(name: string, b: string)
    requires IsIdentifier(name)
    ensures TokenNames("{{" + name + "}}" + b) == [name] + TokenNames(b)
  {
    var s := "{{" + name + "}}" + b;
    GroupMatches(name, b);
    assert s[2..] == name + "}}" + b;
    assert s[|name| + 4..] == b;
    assert MatchToken(s) == Some((name, |name| + 4));
    assert name[|name| - 1] in name;
    StripTrimmed(name);
  }

  // ----- a token with white space inside its braces -----

  /** Text whose last character is no white space, without a closing brace, closes nothing. */
  lemma {:induction false} NothingCloses(name: string, rest: string)
    requires name != "" && '}' !in name && !IsSpace(name[|name| - 1])
    ensures CloseAfter(name + rest) == None
  {
    var s := name + rest;
    assert s[0] == name[0] && name[0] in name;
    if |name| > 1 {
      assert s[1..] == name[1..] + rest;
      NothingCloses(name[1..], rest);
    }
  }

  lemma {:induction false} SpacesClose(tail: string, rest: string)
    requires Spaces(tail)
    ensures CloseAfter(tail + ("}}" + rest)) == Some(|tail| + 2)
  {
    var s := tail + ("}}" + rest);
    if tail == "" {
      assert s == "}}" + rest;
    } else {
      assert s[0] == tail[0] && tail[0] in tail && s[1..] == tail[1..] + ("}}" + rest);
      SpacesClose(tail[1..], rest);
    }
  }

  lemma {:induction false} SpacesLead(lead: string, rest: string)
    requires Spaces(lead) && (rest == "" || !IsSpace(rest[0]))
    ensures LeadingSpaces(lead + rest) == |lead|
  {
    if lead == "" {
      assert lead + rest == rest;
    } else {
      assert (lead + rest)[0] == lead[0] && lead[0] in lead && (lead + rest)[1..] == lead[1..] + rest;
      SpacesLead(lead[1..], rest);
    }
  }

  lemma {:induction false} GroupIsName(name: string, tail: string, rest: string)
    requires name != "" && '}' !in name && '\n' !in name && !IsSpace(name[|name| - 1]) && Spaces(tail)
    ensures LazyGroup(name + (tail + ("}}" + rest))) == Some(|name|)
  {
    hide CloseAfter;
    var after := tail + ("}}" + rest);
    var s := name + after;
    assert s[0] == name[0] && name[0] in name && s[1..] == name[1..] + after;
    if |name| == 1 {
      assert s[1..] == after;
      SpacesClose(tail, rest);
    } else {
      NothingCloses(name[1..], after);
      GroupIsName(name[1..], tail, rest);
    }
  }

  /** White space inside the braces belongs to no name: the token is found and its name is what
      stands between, whatever comes before without an opening and whatever follows. */
  lemma BlanksAreStripped(before: string, lead: string, name: string, tail: string, rest: string)
    requires NoOpening(before) && EndsClean(before) && Spaces(lead) && Spaces(tail)
    requires name != "" && Trimmed(name) && '}' !in name && '\n' !in name
    ensures TokenNames(before + ("{{" + (lead + (name + (tail + ("}}" + rest)))))) == [name] + TokenNames(rest)
  {
    hide LazyGroup, CloseAfter, LeadingSpaces, Strip, TokenNames, MatchToken;
    var after := tail + ("}}" + rest);
    var inside := lead + (name + after);
    SkipPlain(before, "{{" + inside);
    SpacesLead(lead, name + after);
    GroupIsName(name, tail, rest);
    SpacesClose(tail, rest);
    Slices(lead, name, after);
    MatchInside(inside, |lead|, name, |tail| + 2);
    StripTrimmed(name);
    FoundGroup("{{" + inside, name, |inside| - |rest| + 2);
    assert ("{{" + inside)[|inside| - |rest| + 2..] == rest;
  }

  lemma Slices(a: string, b: string, c: string)
    ensures var s := a + (b + c); s[|a|..] == b + c && s[|a| + |b|..] == c && s[|a|..|a| + |b|] == b
  {
  }

  lemma MatchStep(s: string, k: nat, n: nat)
    requires k <= |s| && LazyGroup(s[k..]) == Some(n)
    ensures k + n <= |s| && CloseAfter(s[k + n..]).Some?
    ensures MatchAfter(s, k) == Some((s[k..k + n], k + n + CloseAfter(s[k + n..]).value))
  {
    hide LazyGroup, CloseAfter;
    assert s[k..][n..] == s[k + n..];
  }

  lemma MatchInside(inside: string, k: nat, name: string, n: nat)
    requires k <= |inside| && LeadingSpaces(inside) == k && LazyGroup(inside[k..]) == Some(|name|)
    requires k + |name| <= |inside| && inside[k..k + |name|] == name && CloseAfter(inside[k + |name|..]) == Some(n)
    ensures MatchToken("{{" + inside) == Some((name, k + |name| + n + 2))
  {
    hide LazyGroup, CloseAfter, LeadingSpaces, MatchAfter, MatchToken;
    MatchStep(inside, k, |name|);
    OpenToken(inside);
  }

  lemma OpenToken(inside: string)
    ensures MatchToken("{{" + inside) ==
            match MatchAfter(inside, LeadingSpaces(inside))
            case Some(m) => Some((m.0, m.1 + 2))
            case None => None
  {
    hide MatchAfter, LeadingSpaces;
    assert ("{{" + inside)[2..] == inside;
  }

  lemma FoundGroup(s: string, group: string, n: nat)
    requires MatchToken(s) == Some((group, n)) && n <= |s|
    ensures TokenNames(s) == [Strip(group)] + TokenNames(s[n..])
  {
    hide MatchToken, Strip;
  }

  lemma {:induction false} DoubledNoOpening(v: string)
    requires NoOpening(v)
    ensures NoOpening(DoubleQuotes(v))
    ensures v != "" ==> DoubleQuotes(v) != "" && DoubleQuotes(v)[0] == v[0]
  {
    if v != "" {
      DoubledNoOpening(v[1..]);
      var rest := DoubleQuotes(v[1..]);
      if v[0] == '\'' {
        PlainHasNoOpening("''");
        NoOpeningAppend("''", rest);
      } else if v[0] == '{' {
        assert ("{" + rest)[1..] == rest;
      } else {
        NoOpeningAppend([v[0]], rest);
      }
    }
  }

  lemma WrapNoOpening(q: char, inner: string)
    requires NoOpening(inner) && q != '{'
    ensures NoOpening([q] + inner + [q]) && EndsClean([q] + inner + [q])
  {
    var s := inner + [q];
    InnerNoOpening(q, inner);
    NoOpeningAppend([q], s);
    assert [q] + s == [q] + inner + [q];
  }

  lemma {:induction false} InnerNoOpening(q: char, inner: string)
    requires NoOpening(inner) && q != '{'
    ensures NoOpening(inner + [q])
  {
    if inner != "" {
      assert (inner + [q])[1..] == inner[1..] + [q];
      InnerNoOpening(q, inner[1..]);
    }
  }

  lemma ShowNoOpening(l: Lexeme)
    requires Scannable(l) && !l.Slot?
    ensures NoOpening(Show(l)) && EndsClean(Show(l))
  {
    match l
    case Str(value) =>
      DoubledNoOpening(value);
      WrapNoOpening('\'', DoubleQuotes(value));
      assert Show(l) == ['\''] + DoubleQuotes(value) + ['\''];
    case Quoted(part) =>
      WrapNoOpening('`', part);
      assert Show(l) == ['`'] + part + ['`'];
    case Word(text) => PlainHasNoOpening(text);
    case Key(k) =>
      AsWordSpelling(k);
      PlainHasNoOpening(Spelling(k));
    case _ =>
  }

  /** The scanner finds exactly the slots that were emitted, in order. */
  lemma {:induction false} ScanFindsSlots(ls: Lexemes)
    requires AllScannable(ls)
    ensures TokenNames(Render(ls)) == SlotNames(ls)
  {
    hide NoOpening, EndsClean, IsIdentifier, MatchToken;
    if ls != [] {
      var rest := ls[1..];
      ScanFindsSlots(rest);
      if ls[0].Slot? {
        assert Scannable(ls[0]);
        SlotMatches(ls[0].name, Render(rest));
      } else {
        ShowNoOpening(ls[0]);
        SkipPlain(Show(ls[0]), Render(rest));
      }
    }
  }

  // ----- deleting the qualifier -----

  /** Python's `s.replace(pat, "")` for a non-empty `pat`. */
  function Delete(s: string, pat: string): string
    requires pat != ""
  {
    if s == "" then ""
    else if pat <= s then Delete(s[|pat|..], pat)
    else [s[0]] + Delete(s[1..], pat)
  }

  /** `{{name}}.` */
  function Qualifier(name: string): string {
    "{{" + name + "}}" + "."
  }

  /** The lexemes without the qualifiers. */
  function Unqualified(ls: Lexemes, name: string): Lexemes {
    if ls == [] then []
    else if |ls| > 1 && ls[0] == Slot(name) && ls[1] == Word(".") then Unqualified(ls[2..], name)
    else [ls[0]] + Unqualified(ls[1..], name)
  }

  /** Every slot of this name is a qualifier. */
  predicate QualifiersOnly(ls: Lexemes, name: string) {
    forall i :: 0 <= i < |ls| && ls[i] == Slot(name) ==> i + 1 < |ls| && ls[i + 1] == Word(".")
  }

  lemma NoOpeningFirst(a: string, b: string)
    requires a != "" && NoOpening(a) && EndsClean(a)
    ensures !IsSlotOpen(a + b) && NoOpening(a[1..]) && EndsClean(a[1..])
  {
    assert |a| > 1 ==> a[1..][|a| - 2] == a[|a| - 1];
  }

  lemma {:induction false} DeleteSkip(a: string, b: string, pat: string)
    requires NoOpening(a) && EndsClean(a) && IsSlotOpen(pat)
    ensures Delete(a + b, pat) == a + Delete(b, pat)
  {
    hide NoOpening, EndsClean;
    if a == "" {
      assert a + b == b;
    } else {
      var s := a + b;
      assert s[1..] == a[1..] + b;
      NoOpeningFirst(a, b);
      assert !(pat <= s) by {
        assert pat <= s ==> IsSlotOpen(s);
      }
      DeleteSkip(a[1..], b, pat);
      assert Delete(s, pat) == [s[0]] + Delete(s[1..], pat) && s[0] == a[0];
      assert [a[0]] + (a[1..] + Delete(b, pat)) == a + Delete(b, pat);
    }
  }

  lemma SameSlotName(name: string, other: string, b: string, c: string)
    requires '}' !in name && '}' !in other
    requires "{{" + other + "}}" + b == Qualifier(name) + c
    ensures name == other
  {
    var s := "{{" + other + "}}" + b;
    assert s[2..] == other + "}}" + b;
    assert s[2..] == name + "}}" + ("." + c);
    FindClosePrefix(other, b);
    FindClosePrefix(name, "." + c);
    assert s[2..][..|other|] == other && s[2..][..|name|] == name;
  }

  /** A slot of another name does not begin with the qualifier. */
  lemma OtherSlot(name: string, other: string, b: string)
    requires '}' !in name && '}' !in other && name != other
    ensures !(Qualifier(name) <= "{{" + other + "}}" + b)
  {
    var s, pat := "{{" + other + "}}" + b, Qualifier(name);
    if pat <= s {
      SameSlotName(name, other, b, s[|pat|..]);
    }
  }

  lemma DeleteOtherSlot(name: string, other: string, b: string)
    requires '}' !in name && IsIdentifier(other) && name != other
    ensures Delete("{{" + other + "}}" + b, Qualifier(name)) == "{{" + other + "}}" + Delete(b, Qualifier(name))
  {
    var pat, tail := Qualifier(name), "{" + other + "}}";
    var s := "{{" + other + "}}" + b;
    assert '}' !in other && forall c <- other :: c != '{';
    OtherSlot(name, other, b);
    assert s[1..] == tail + b;
    PlainHasNoOpening(other + "}}");
    assert tail == "{" + (other + "}}") && tail[1..] == other + "}}";
    assert !IsSlotOpen(tail) by {
      assert tail[1] == other[0];
    }
    DeleteSkip(tail, b, pat);
    assert IsSlotOpen(pat) && pat != "";
  }

  lemma DeleteQualifier(name: string, b: string)
    ensures Delete(Qualifier(name) + b, Qualifier(name)) == Delete(b, Qualifier(name))
  {
    assert (Qualifier(name) + b)[|Qualifier(name)|..] == b;
    assert Qualifier(name) <= Qualifier(name) + b;
  }

  lemma DeleteNothing(name: string)
    ensures Qualifier(name) != ""
    ensures Delete("", Qualifier(name)) == ""
  {
  }

  lemma QualifiersTail(ls: Lexemes, name: string, n: nat)
    requires QualifiersOnly(ls, name) && n <= |ls|
    ensures QualifiersOnly(ls[n..], name)
  {
    assert forall i :: 0 <= i < |ls[n..]| ==> ls[n..][i] == ls[n + i];
  }

  lemma QualifierText(ls: Lexemes, name: string)
    requires |ls| > 1 && ls[0] == Slot(name) && ls[1] == Word(".")
    ensures Render(ls) == Qualifier(name) + Render(ls[2..])
  {
    hide Show;
    RenderTwo(ls);
    QualifierShows(name);
  }

  lemma RenderTwo(ls: Lexemes)
    requires |ls| > 1
    ensures Render(ls) == Show(ls[0]) + Show(ls[1]) + Render(ls[2..])
  {
    hide Show;
    var rest := ls[1..];
    assert rest[0] == ls[1] && rest[1..] == ls[2..];
    assert Render(rest) == Show(ls[1]) + Render(ls[2..]);
    assert Render(ls) == Show(ls[0]) + Render(rest);
  }

  lemma QualifierShows(name: string)
    ensures Show(Slot(name)) + Show(Word(".")) == Qualifier(name)
  {
  }

  lemma DeleteOther(l: Lexeme, name: string, b: string)
    requires Scannable(l) && l != Slot(name) && IsIdentifier(name)
    ensures Qualifier(name) != ""
    ensures Delete(Show(l) + b, Qualifier(name)) == Show(l) + Delete(b, Qualifier(name))
  {
    if l.Slot? {
      assert '}' !in name;
      DeleteOtherSlot(name, l.name, b);
    } else {
      ShowNoOpening(l);
      DeleteSkip(Show(l), b, Qualifier(name));
    }
  }

  /** Deleting the qualifier text everywhere deletes exactly the qualifier lexemes. */
  lemma {:induction false} DeleteRendered(ls: Lexemes, name: string)
    requires AllScannable(ls) && QualifiersOnly(ls, name) && IsIdentifier(name)
    ensures Delete(Render(ls), Qualifier(name)) == Render(Unqualified(ls, name))
    decreases |ls|
  {
    hide Delete, Show, Scannable, IsIdentifier, Qualifier;
    if ls == [] {
      DeleteNothing(name);
    } else if ls[0] == Slot(name) {
      QualifierText(ls, name);
      QualifiersTail(ls, name, 2);
      DeleteQualifier(name, Render(ls[2..]));
      DeleteRendered(ls[2..], name);
    } else {
      QualifiersTail(ls, name, 1);
      DeleteRendered(ls[1..], name);
      DeleteOther(ls[0], name, Render(ls[1..]));
    }
  }
}
