/**
 The placeholder pattern as its priorities define it: of all ways to read a token at the start
 of a text, the scanner takes the one with the most white space before the name, and then the
 shortest name. A token with nothing but blanks names nothing.
 */
module TokenPattern {
  import opened Text
  import opened SqlText
  import opened SlotTokens

  /** After the opening braces: `k` blanks, a name of `n` characters on one line, blanks, and the
      closing braces, ending at `e`. */
  predicate Reads(s: string, k: nat, n: nat, e: nat) {
    && n > 0 && k + n + 2 <= e <= |s|
    && Spaces(s[..k]) && '\n' !in s[k..k + n] && Spaces(s[k + n..e - 2]) && s[e - 2..e] == "}}"
  }

  // ----- the closing part -----

  lemma {:induction false} CloseFound(s: string)
    requires CloseAfter(s).Some?
    ensures var e := CloseAfter(s).value; 2 <= e <= |s| && Spaces(s[..e - 2]) && s[e - 2..e] == "}}"
  {
    if IsSpace(s[0]) {
      CloseFound(s[1..]);
      var e := CloseAfter(s).value;
      assert s[..e - 2] == [s[0]] + s[1..][..e - 3];
      assert s[e - 2..e] == s[1..][e - 3..e - 1];
    } else {
      assert s[..0] == "" && s[0..2] == "}}";
    }
  }

  lemma {:induction false} CloseIs(s: string, e: nat)
    requires 2 <= e <= |s| && Spaces(s[..e - 2]) && s[e - 2..e] == "}}"
    ensures CloseAfter(s) == Some(e)
  {
    if e == 2 {
      assert s[0] == s[0..2][0] && s[1] == s[0..2][1];
    } else {
      assert s[0] == s[..e - 2][0] && s[..e - 2][0] in s[..e - 2];
      assert s[1..][..e - 3] == s[..e - 2][1..];
      assert s[1..][e - 3..e - 1] == s[e - 2..e];
      CloseIs(s[1..], e - 1);
    }
  }

  // ----- the name -----

  /** A name of `n` characters could end here. */
  predicate CouldEnd(s: string, n: nat) {
    0 < n <= |s| && '\n' !in s[..n] && CloseAfter(s[n..]).Some?
  }

  lemma CouldEndLater(s: string, n: nat)
    requires s != "" && n > 0
    ensures CouldEnd(s, n + 1) <==> s[0] != '\n' && CouldEnd(s[1..], n)
  {
    if n + 1 <= |s| {
      assert s[..n + 1] == [s[0]] + s[1..][..n] && s[n + 1..] == s[1..][n..];
    }
  }

  /** The shortest name that could end. */
  lemma {:induction false} ShortestName(s: string, n: nat)
    ensures LazyGroup(s).Some? ==>
              CouldEnd(s, LazyGroup(s).value) && (CouldEnd(s, n) ==> LazyGroup(s).value <= n)
    ensures CouldEnd(s, n) ==> LazyGroup(s).Some?
  {
    hide CloseAfter, CouldEnd;
    if s != "" {
      OneCouldEnd(s);
      if n > 1 {
        CouldEndLater(s, n - 1);
      }
      if s[0] != '\n' && CloseAfter(s[1..]).None? {
        ShortestName(s[1..], if n > 1 then n - 1 else 0);
        if LazyGroup(s[1..]).Some? {
          CouldEndLater(s, LazyGroup(s[1..]).value);
        }
      }
    }
    NoneCouldEnd(s, n);
  }

  lemma OneCouldEnd(s: string)
    requires s != ""
    ensures CouldEnd(s, 1) <==> s[0] != '\n' && CloseAfter(s[1..]).Some?
    ensures !CouldEnd(s, 0)
  {
    hide CloseAfter;
    assert s[..1] == [s[0]];
  }

  lemma NoneCouldEnd(s: string, n: nat)
    ensures s == "" || s[0] == '\n' || n == 0 ==> !CouldEnd(s, n)
  {
    hide CloseAfter;
    if s != "" && 0 < n <= |s| {
      assert s[..n][0] == s[0];
    }
  }

  // ----- the blanks before it -----

  lemma {:induction false} LeadingAre(s: string, k: nat)
    ensures Spaces(s[..LeadingSpaces(s)])
    ensures k <= |s| && Spaces(s[..k]) ==> k <= LeadingSpaces(s)
  {
    if s != "" && IsSpace(s[0]) {
      LeadingAre(s[1..], if k > 0 then k - 1 else 0);
      var m := LeadingSpaces(s);
      assert s[..m] == [s[0]] + s[1..][..m - 1];
      if 0 < k <= |s| && Spaces(s[..k]) {
        assert s[1..][..k - 1] == s[..k][1..];
      }
    } else {
      assert 0 < k <= |s| ==> s[..k][0] == s[0] && s[0] in s[..k];
    }
  }

  /** The largest start, up to `k`, at which a name fits. */
  lemma {:induction false} LargestStart(s: string, k: nat, j: nat) returns (at: nat)
    requires k <= |s|
    ensures MatchAfter(s, k).Some? ==>
              && at <= k && LazyGroup(s[at..]).Some?
              && MatchAfter(s, k) == Some((s[at..at + LazyGroup(s[at..]).value],
                                           at + LazyGroup(s[at..]).value
                                           + CloseAfter(s[at + LazyGroup(s[at..]).value..]).value))
              && (at < j <= k ==> LazyGroup(s[j..]).None?)
    ensures j <= k && LazyGroup(s[j..]).Some? ==> MatchAfter(s, k).Some?
    decreases k
  {
    hide LazyGroup, CloseAfter;
    if LazyGroup(s[k..]).Some? || k == 0 {
      at := k;
      if LazyGroup(s[k..]).Some? {
        MatchStep(s, k, LazyGroup(s[k..]).value);
      }
    } else {
      at := LargestStart(s, k - 1, j);
    }
  }

  lemma ReadsIff(s: string, k: nat, n: nat, e: nat)
    requires k <= |s|
    ensures Reads(s, k, n, e) <==>
            Spaces(s[..k]) && CouldEnd(s[k..], n) && k + n <= e && CloseAfter(s[k + n..]) == Some(e - k - n)
  {
    hide CloseAfter;
    if k + n <= |s| && n > 0 {
      assert s[k..][..n] == s[k..k + n] && s[k..][n..] == s[k + n..];
      if CloseAfter(s[k + n..]).Some? {
        CloseFound(s[k + n..]);
      }
      if Reads(s, k, n, e) {
        assert s[k + n..][..e - k - n - 2] == s[k + n..e - 2] && s[k + n..][e - k - n - 2..e - k - n] == s[e - 2..e];
        CloseIs(s[k + n..], e - k - n);
      }
      if CloseAfter(s[k + n..]) == Some(e - k - n) && k + n <= e {
        assert s[k + n..][..e - k - n - 2] == s[k + n..e - 2] && s[k + n..][e - k - n - 2..e - k - n] == s[e - 2..e];
      }
    }
  }

  /** What the scanner takes at the start of a text: a reading with the most blanks before the name
      and, among those, the shortest name; nothing exactly when there is no reading. */
  lemma TokenIsPreferred(s: string, k: nat, n: nat, e: nat) returns (k0: nat, n0: nat, e0: nat)
    ensures MatchToken("{{" + s).Some? ==>
              && Reads(s, k0, n0, e0) && MatchToken("{{" + s) == Some((s[k0..k0 + n0], e0 + 2))
              && (Reads(s, k, n, e) ==> k < k0 || (k == k0 && (n0 < n || (n == n0 && e == e0))))
    ensures Reads(s, k, n, e) ==> MatchToken("{{" + s).Some?
  {
    hide LazyGroup, CloseAfter, MatchAfter, LeadingSpaces, MatchToken, Reads, CouldEnd;
    OpenToken(s);
    LeadingAre(s, k);
    k0 := LargestStart(s, LeadingSpaces(s), k);
    n0, e0 := 0, 0;
    if MatchToken("{{" + s).Some? {
      n0 := LazyGroup(s[k0..]).value;
      e0 := k0 + n0 + CloseAfter(s[k0 + n0..]).value;
      assert s[k0..][n0..] == s[k0 + n0..];
      LeadingPrefix(s, k0);
      ShortestName(s[k0..], n);
      ReadsIff(s, k0, n0, e0);
    }
    if Reads(s, k, n, e) {
      ReadsBounds(s, k, n, e);
      ReadsIff(s, k, n, e);
      ShortestName(s[k..], n);
    }
  }

  lemma ReadsBounds(s: string, k: nat, n: nat, e: nat)
    requires Reads(s, k, n, e)
    ensures n > 0 && k <= |s| && Spaces(s[..k])
  {
  }

  lemma LeadingPrefix(s: string, k: nat)
    requires k <= LeadingSpaces(s)
    ensures Spaces(s[..k])
  {
    LeadingAre(s, k);
    assert s[..k] <= s[..LeadingSpaces(s)];
    forall c <- s[..k]
      ensures IsSpace(c)
    {
      assert c in s[..LeadingSpaces(s)];
    }
  }

  // ----- a token with nothing but blanks -----

  lemma {:induction false} BlanksStrip(blanks: string)
    requires Spaces(blanks)
    ensures Strip(blanks) == ""
  {
    if blanks != "" {
      assert blanks[|blanks| - 1] in blanks;
      BlanksStrip(blanks[..|blanks| - 1]);
    }
  }

  /** The text after the blanks could be read as a name that closes again. */
  ghost predicate ClosesAgain(blanks: string, rest: string) {
    exists n: nat, e: nat :: Reads(blanks + ("}}" + rest), |blanks|, n, e)
  }

  lemma LastBlankReads(blanks: string, rest: string)
    requires blanks != "" && Spaces(blanks) && '\n' !in blanks
    ensures Reads(blanks + ("}}" + rest), |blanks| - 1, 1, |blanks| + 2)
  {
    var s, b := blanks + ("}}" + rest), |blanks|;
    assert s[..b - 1] == blanks[..b - 1] && s[b - 1..b] == [blanks[b - 1]] && s[b..b] == "" && s[b..b + 2] == "}}";
    assert blanks[b - 1] in blanks;
  }

  lemma BlanksEnd(blanks: string, rest: string, k: nat)
    requires k <= |blanks + ("}}" + rest)|
    ensures Spaces((blanks + ("}}" + rest))[..k]) ==> k <= |blanks|
  {
    var s := blanks + ("}}" + rest);
    if k > |blanks| {
      assert s[..k][|blanks|] == '}' && '}' in s[..k];
    }
  }

  lemma EmptyStrip(s: string)
    ensures Strip(s) == "" ==> Spaces(s)
  {
    var lead, tail := StripSplits(s);
    if Strip(s) == "" {
      assert s == lead + tail;
    }
  }

  lemma NameAfterBlanks(blanks: string, rest: string, n: nat, e: nat)
    requires Reads(blanks + ("}}" + rest), |blanks|, n, e)
    ensures Strip((blanks + ("}}" + rest))[|blanks|..|blanks| + n]) != ""
  {
    hide Strip;
    var name := (blanks + ("}}" + rest))[|blanks|..|blanks| + n];
    assert name[0] == '}' && name[0] in name;
    EmptyStrip(name);
  }

  /** A token with nothing but blanks names nothing, unless the text after it on the line closes
      once more: then everything up to there is taken as one name. */
  lemma BlankTokenIff(before: string, blanks: string, rest: string)
    requires NoOpening(before) && EndsClean(before) && blanks != "" && Spaces(blanks) && '\n' !in blanks
    ensures var names := TokenNames(before + ("{{" + (blanks + ("}}" + rest))));
            && names != []
            && (names[0] == "" <==> !ClosesAgain(blanks, rest))
            && (names[0] == "" ==> names == [""] + TokenNames(rest))
  {
    hide TokenNames, MatchToken, Strip, Reads;
    var s, b := blanks + ("}}" + rest), |blanks|;
    SkipPlain(before, "{{" + s);
    LastBlankReads(blanks, rest);
    if ClosesAgain(blanks, rest) {
      var n1: nat, e1: nat :| Reads(s, b, n1, e1);
      var k, n, e := TokenIsPreferred(s, b, n1, e1);
      ReadsBounds(s, k, n, e);
      BlanksEnd(blanks, rest, k);
      assert k == b;
      NameAfterBlanks(blanks, rest, n, e);
      TokenFound(s, k, n, e);
    } else {
      var k, n, e := TokenIsPreferred(s, b - 1, 1, b + 2);
      ReadsBounds(s, k, n, e);
      BlanksEnd(blanks, rest, k);
      assert k == b - 1 && n == 1 && e == b + 2;
      BlankName(blanks, rest);
      TokenFound(s, k, n, e);
      assert ("{{" + s)[b + 4..] == rest;
    }
  }

  lemma BlankName(blanks: string, rest: string)
    requires blanks != "" && Spaces(blanks)
    ensures Strip((blanks + ("}}" + rest))[|blanks| - 1..|blanks|]) == ""
  {
    var last := (blanks + ("}}" + rest))[|blanks| - 1..|blanks|];
    assert last == [blanks[|blanks| - 1]] && blanks[|blanks| - 1] in blanks;
    BlanksStrip(last);
  }

  lemma TokenFound(s: string, k: nat, n: nat, e: nat)
    requires Reads(s, k, n, e) && MatchToken("{{" + s) == Some((s[k..k + n], e + 2))
    ensures TokenNames("{{" + s) == [Strip(s[k..k + n])] + TokenNames(("{{" + s)[e + 2..])
  {
    hide MatchToken, Strip;
    FoundGroup("{{" + s, s[k..k + n], e + 2);
  }

  lemma SlotClosesAgain()
    ensures ClosesAgain(" ", " {{a}}")
  {
    var s := " " + ("}}" + " {{a}}");
    assert s == " }} {{a}}";
    assert s[..1] == " " && s[1..7] == "}} {{a" && s[7..7] == "" && s[7..9] == "}}";
    assert Reads(s, 1, 6, 9);
  }

  /** The failing input: a blank token in front of a slot takes the slot's text with it. */
  lemma BlankTokenTakesSlot()
    ensures var names := TokenNames("{{ }} {{a}}"); names != [] && names[0] != ""
  {
    hide TokenNames, ClosesAgain;
    SlotClosesAgain();
    BlankTokenIff("", " ", " {{a}}");
    assert "" + ("{{" + (" " + ("}}" + " {{a}}"))) == "{{ }} {{a}}";
  }
}
