/** Character classes and string helpers shared by the compilers and scanners. */
module Text {

  /** A value that may be absent; usable with `:-`. */
  datatype Option<+T> = None | Some(value: T) {
    predicate IsFailure() {
      None?
    }

    function PropagateFailure<U>(): Option<U>
      requires None?
    {
      None
    }

    function Extract(): T
      requires Some?
    {
      value
    }
  }

  /** Python's `str.isspace` on one character, which is also what `\s` matches in a text pattern. */
  predicate IsSpace(c: char) {
    c == ' ' || '\t' <= c <= '\r' || '\U{1C}' <= c <= '\U{1F}' || (c > '\U{7F}' && IsWideSpace(c))
  }

  /** The white space up to code point 127. */
  lemma BlanksAre(c: char)
    requires c <= '\U{7F}'
    ensures IsSpace(c) <==> c in "\t\n\U{B}\U{C}\r\U{1C}\U{1D}\U{1E}\U{1F} "
  {
    var blanks := "\t\n\U{B}\U{C}\r\U{1C}\U{1D}\U{1E}\U{1F} ";
    if '\t' <= c <= '\r' {
      assert blanks[(c - '\t') as int] == c;
    } else if '\U{1C}' <= c <= '\U{1F}' {
      assert blanks[5 + (c - '\U{1C}') as int] == c;
    } else if c == ' ' {
      assert blanks[9] == c;
    }
  }

  predicate IsWideSpace(c: char) {
    || c == '\U{85}' || c == '\U{A0}' || c == '\U{1680}'
    || '\U{2000}' <= c <= '\U{200A}'
    || c == '\U{2028}' || c == '\U{2029}' || c == '\U{202F}' || c == '\U{205F}' || c == '\U{3000}'
  }

  predicate IsDigit(c: char) {
    '0' <= c <= '9'
  }

  predicate IsIdentStart(c: char) {
    'a' <= c <= 'z' || 'A' <= c <= 'Z' || c == '_'
  }

  predicate IsIdentChar(c: char) {
    IsIdentStart(c) || IsDigit(c)
  }

  /** The shape `[A-Za-z_][0-9A-Za-z_]*`. */
  predicate IsIdentifier(s: string) {
    s != "" && IsIdentStart(s[0]) && forall c <- s :: IsIdentChar(c)
  }

  function LStrip(s: string): string {
    if s != "" && IsSpace(s[0]) then LStrip(s[1..]) else s
  }

  function RStrip(s: string): string {
    if s != "" && IsSpace(s[|s| - 1]) then RStrip(s[..|s| - 1]) else s
  }

  function Strip(s: string): string {
    LStrip(RStrip(s))
  }

  predicate Spaces(s: string) {
    forall c <- s :: IsSpace(c)
  }

  /** What stripping leaves: no white space at either end. */
  predicate Trimmed(s: string) {
    s != "" ==> !IsSpace(s[0]) && !IsSpace(s[|s| - 1])
  }

  lemma {:induction false} LStripSplits(s: string) returns (lead: string)
    ensures Spaces(lead) && s == lead + LStrip(s)
    ensures LStrip(s) != "" ==> !IsSpace(LStrip(s)[0])
  {
    if s != "" && IsSpace(s[0]) {
      var rest := LStripSplits(s[1..]);
      lead := [s[0]] + rest;
    } else {
      lead := "";
    }
  }

  lemma {:induction false} RStripSplits(s: string) returns (tail: string)
    ensures Spaces(tail) && s == RStrip(s) + tail
    ensures RStrip(s) != "" ==> !IsSpace(RStrip(s)[|RStrip(s)| - 1])
  {
    if s != "" && IsSpace(s[|s| - 1]) {
      var rest := RStripSplits(s[..|s| - 1]);
      tail := rest + [s[|s| - 1]];
    } else {
      tail := "";
    }
  }

  /** Stripping removes white space at the two ends, all of it, and nothing else. */
  lemma StripSplits(s: string) returns (lead: string, tail: string)
    ensures Spaces(lead) && Spaces(tail)
    ensures s == lead + Strip(s) + tail
    ensures Trimmed(Strip(s))
  {
    tail := RStripSplits(s);
    lead := LStripSplits(RStrip(s));
  }

  lemma StripTrimmed(s: string)
    requires Trimmed(s)
    ensures Strip(s) == s
  {
  }

  lemma Regroup(a: string, b: string, c: string)
    ensures a + b + c == a + (b + c)
  {
  }

  function Join(parts: seq<string>, sep: string): string {
    if parts == [] then ""
    else if |parts| == 1 then parts[0]
    else parts[0] + sep + Join(parts[1..], sep)
  }

  predicate EndsWith(s: string, suffix: string) {
    |suffix| <= |s| && s[|s| - |suffix|..] == suffix
  }

  /** Position of the first `c` in `s`. */
  function FindChar(s: string, c: char): (r: Option<nat>)
    ensures r.Some? ==> r.value < |s|
  {
    if s == "" then None
    else if s[0] == c then Some(0)
    else
      var n :- FindChar(s[1..], c);
      Some(n + 1)
  }

  /** Python's `s.split(c)`: the pieces between the separators, never an empty list. */
  function SplitOn(s: string, c: char): (parts: seq<string>)
    ensures parts != []
    ensures forall p <- parts :: c !in p
  {
    if s == "" then [""]
    else
      var rest := SplitOn(s[1..], c);
      if s[0] == c then [""] + rest else [[s[0]] + rest[0]] + rest[1..]
  }

  lemma {:induction false} SplitPlain(s: string, c: char)
    requires c !in s
    ensures SplitOn(s, c) == [s]
  {
    if s != "" {
      assert c !in s[1..];
      SplitPlain(s[1..], c);
      assert [s[0]] + s[1..] == s;
    }
  }

  lemma {:induction false} SplitFirst(a: string, rest: string, c: char)
    requires c !in a
    ensures SplitOn(a + [c] + rest, c) == [a] + SplitOn(rest, c)
  {
    var s := a + [c] + rest;
    if a == "" {
      assert s[1..] == rest;
    } else {
      assert s[1..] == a[1..] + [c] + rest && s[0] == a[0] && a[0] in a;
      SplitFirst(a[1..], rest, c);
      assert [a[0]] + a[1..] == a && ([a[1..]] + SplitOn(rest, c))[1..] == SplitOn(rest, c);
    }
  }
}
