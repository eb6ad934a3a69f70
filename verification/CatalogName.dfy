/**
 The catalog part of a fully qualified table name: quoting is undone for every catalog name,
 dots and backticks included, and plain names come back unchanged.
 */
module CatalogName {
  import opened Text

  /** A name with its backticks doubled. */
  function Doubled(name: string): string {
    if name == "" then "" else (if name[0] == '`' then "``" else [name[0]]) + Doubled(name[1..])
  }

  /** Python's `s.replace("``", "`")`. */
  function Collapsed(s: string): string {
    if s == "" then ""
    else if |s| > 1 && s[0] == '`' && s[1] == '`' then "`" + Collapsed(s[2..])
    else [s[0]] + Collapsed(s[1..])
  }

  /** After an opening backtick: where the first backtick that is not doubled stands. */
  function Closing(s: string): (r: Option<nat>)
    ensures r.Some? ==> r.value < |s|
  {
    if s == "" then None
    else if s[0] != '`' then
      var n :- Closing(s[1..]);
      Some(n + 1)
    else if |s| > 1 && s[1] == '`' then
      var n :- Closing(s[2..]);
      Some(n + 2)
    else Some(0)
  }

  function BeforeDot(s: string): string {
    if s == "" || s[0] == '.' then "" else [s[0]] + BeforeDot(s[1..])
  }

  function Catalog(fqn: string): string {
    if fqn != "" && fqn[0] == '`' && Closing(fqn[1..]).Some? then Collapsed(fqn[1..1 + Closing(fqn[1..]).value])
    else BeforeDot(fqn)
  }

  lemma ClosingStep(fqn: string, i: nat)
    requires 0 < i < |fqn|
    ensures fqn[i] != '`' ==>
              Closing(fqn[i..]) == match Closing(fqn[i + 1..]) case Some(n) => Some(n + 1) case None => None
    ensures fqn[i] == '`' && i + 1 < |fqn| && fqn[i + 1] == '`' ==>
              Closing(fqn[i..]) == match Closing(fqn[i + 2..]) case Some(n) => Some(n + 2) case None => None
    ensures fqn[i] == '`' && !(i + 1 < |fqn| && fqn[i + 1] == '`') ==> Closing(fqn[i..]) == Some(0)
  {
    assert fqn[i..][1..] == fqn[i + 1..];
    if i + 1 < |fqn| {
      assert fqn[i..][2..] == fqn[i + 2..];
    }
  }

  /** `catalog_of` */
  method CatalogOf(fqn: string) returns (r: string)
    ensures r == Catalog(fqn)
  {
    if fqn != "" && fqn[0] == '`' {
      var i := 1;
      while i < |fqn|
        invariant 1 <= i <= |fqn|
        invariant Closing(fqn[1..]) == match Closing(fqn[i..]) case Some(n) => Some(i - 1 + n) case None => None
      {
        ClosingStep(fqn, i);
        if fqn[i] == '`' {
          if i + 1 < |fqn| && fqn[i + 1] == '`' {
            i := i + 2;
            continue;
          }
          return Collapsed(fqn[1..i]);
        }
        i := i + 1;
      }
    }
    return BeforeDot(fqn);
  }

  /** One written character of a quoted name is passed over. */
  lemma ClosingPast(head: string, tail: string)
    requires head == "``" || (|head| == 1 && head[0] != '`')
    requires Closing(tail).Some?
    ensures Closing(head + tail) == Some(Closing(tail).value + |head|)
  {
    assert (head + tail)[|head|..] == tail;
  }

  lemma DoubledHead(name: string, end: string)
    requires name != ""
    ensures var head := if name[0] == '`' then "``" else [name[0]];
            && Doubled(name) + end == head + (Doubled(name[1..]) + end)
            && |Doubled(name)| == |head| + |Doubled(name[1..])|
  {
    Regroup(if name[0] == '`' then "``" else [name[0]], Doubled(name[1..]), end);
  }

  lemma {:induction false} ClosingDoubled(name: string, tail: string)
    requires tail == "" || tail[0] != '`'
    ensures Closing(Doubled(name) + ("`" + tail)) == Some(|Doubled(name)|)
  {
    var end := "`" + tail;
    if name == "" {
      assert Doubled(name) + end == end;
    } else {
      hide Closing, Doubled;
      ClosingDoubled(name[1..], tail);
      DoubledHead(name, end);
      ClosingPast(if name[0] == '`' then "``" else [name[0]], Doubled(name[1..]) + end);
    }
  }

  lemma {:induction false} CollapsedDoubled(name: string)
    ensures Collapsed(Doubled(name)) == name
  {
    if name != "" {
      CollapsedDoubled(name[1..]);
      var rest := Doubled(name[1..]);
      if name[0] == '`' {
        assert ("``" + rest)[2..] == rest;
      } else {
        assert ([name[0]] + rest)[1..] == rest;
      }
      assert name == [name[0]] + name[1..];
    }
  }

  /** Every catalog name survives being quoted, whatever its characters and whatever follows
      the closing backtick, as long as that is not another backtick. */
  lemma QuotedNameComesBack(name: string, tail: string)
    requires tail == "" || tail[0] != '`'
    ensures Catalog("`" + Doubled(name) + "`" + tail) == name
  {
    var fqn := "`" + Doubled(name) + "`" + tail;
    var d := Doubled(name);
    assert fqn[1..] == d + ("`" + tail);
    ClosingDoubled(name, tail);
    CollapsedDoubled(name);
    assert fqn[1..1 + |d|] == d;
  }

  lemma {:induction false} BeforeDotOf(name: string, tail: string)
    requires '.' !in name && (tail == "" || tail[0] == '.')
    ensures BeforeDot(name + tail) == name
  {
    if name == "" {
      assert name + tail == tail;
    } else {
      assert (name + tail)[1..] == name[1..] + tail && name[0] in name;
      BeforeDotOf(name[1..], tail);
    }
  }

  /** An unquoted name without a dot or a leading backtick comes back unchanged. */
  lemma PlainNameComesBack(name: string, tail: string)
    requires '.' !in name && (name != "" ==> name[0] != '`') && (tail == "" || tail[0] == '.')
    ensures Catalog(name + tail) == name
  {
    BeforeDotOf(name, tail);
    assert name != "" ==> (name + tail)[0] == name[0];
  }

  lemma {:induction false} NeverCloses(name: string)
    ensures Closing(Doubled(name)) == None
  {
    if name != "" {
      var rest := Doubled(name[1..]);
      NeverCloses(name[1..]);
      if name[0] == '`' {
        assert ("``" + rest)[2..] == rest;
      } else {
        assert ([name[0]] + rest)[1..] == rest;
      }
    }
  }

  /** A name whose quote never closes is cut at its first dot, like an unquoted one. */
  lemma UnclosedNameIsCut(name: string, before: string, rest: string)
    requires "`" + Doubled(name) == before + rest && '.' !in before && (rest == "" || rest[0] == '.')
    ensures Catalog("`" + Doubled(name)) == before
  {
    assert ("`" + Doubled(name))[1..] == Doubled(name);
    NeverCloses(name);
    BeforeDotOf(before, rest);
  }
}
