/**
 Conditions written one after another with AND or OR between them and no brackets:
 the text is read as the OR of its maximal AND-runs.
 */
module Connectives {
  import opened Text
  import opened SqlText
  import opened SqlReader

  /** A condition's text, and whether OR (rather than AND) joins it to what is before it. */
  datatype Part = Part(joinedByOr: bool, text: Tokens)

  /** A condition's meaning, and how it is joined. */
  datatype Cond = Cond(joinedByOr: bool, meaning: Option<Truth>)

  function Joiner(byOr: bool): Lexeme {
    Key(if byOr then KOr else KAnd)
  }

  function PartsText(parts: seq<Part>): Tokens {
    if parts == [] then []
    else if |parts| == 1 then parts[0].text
    else parts[0].text + [Joiner(parts[1].joinedByOr)] + PartsText(parts[1..])
  }

  lemma PartsTextCons(p: Part, later: seq<Part>)
    ensures PartsText([p] + later) ==
            if later == [] then p.text else p.text + [Joiner(later[0].joinedByOr)] + PartsText(later)
  {
    assert ([p] + later)[1..] == later;
  }

  function Conds(parts: seq<Part>, env: Env): seq<Cond> {
    seq(|parts|, i requires 0 <= i < |parts| => Cond(parts[i].joinedByOr, ReadOr(parts[i].text, env)))
  }

  /** Cuts before every condition that OR joins to what is before it. */
  function Runs(conds: seq<Cond>): (runs: seq<seq<Cond>>)
    ensures conds != [] ==> runs != [] && runs[0] != []
  {
    if conds == [] then []
    else if |conds| == 1 then [conds]
    else
      var rest := Runs(conds[1..]);
      if conds[1].joinedByOr then [[conds[0]]] + rest else [[conds[0]] + rest[0]] + rest[1..]
  }

  function AllOf(run: seq<Cond>): Option<Truth> {
    if run == [] then Some(True)
    else if |run| == 1 then run[0].meaning
    else AndR(run[0].meaning, AllOf(run[1..]))
  }

  function AnyOf(runs: seq<seq<Cond>>): Option<Truth> {
    if runs == [] then Some(False)
    else if |runs| == 1 then AllOf(runs[0])
    else OrR(AllOf(runs[0]), AnyOf(runs[1..]))
  }

  /** Where the text's first OR falls: the first run is to its left, the others to its right. */
  predicate Aligned(ts: Tokens, runs: seq<seq<Cond>>, env: Env)
    requires runs != []
  {
    var j := FirstCut(OrLevel, ts, Start);
    && ReadAnd(ts[..j], env) == AllOf(runs[0])
    && (j == |ts| <==> |runs| == 1)
    && (j < |ts| ==> ReadOr(ts[j + 1..], env) == AnyOf(runs[1..]))
  }

  lemma AlignedReads(ts: Tokens, runs: seq<seq<Cond>>, env: Env)
    requires runs != [] && Aligned(ts, runs, env)
    ensures ReadOr(ts, env) == AnyOf(runs)
  {
    assert ts[..|ts|] == ts;
  }

  lemma {:induction false} PartsTextScan(parts: seq<Part>)
    requires parts != [] && forall p <- parts :: Closed(p.text)
    ensures Run(PartsText(parts), Start) == Start && Balanced(PartsText(parts), 0)
  {
    if |parts| > 1 {
      var f, c, rest := parts[0].text, Joiner(parts[1].joinedByOr), PartsText(parts[1..]);
      PartsTextScan(parts[1..]);
      var tail := [c] + rest;
      assert tail[1..] == rest && f + [c] + rest == f + tail;
      RunAppend(f, tail, Start);
      BalancedAppend(f, tail, 0);
    }
  }

  lemma OrCut(f: Tokens, rest: Tokens)
    requires Closed(f)
    ensures FirstCut(OrLevel, f + [Key(KOr)] + rest, Start) == |f|
  {
    FirstCutAppend(OrLevel, f, [Key(KOr)] + rest, Start);
    assert f + [Key(KOr)] + rest == f + ([Key(KOr)] + rest);
  }

  lemma AndKeepsCut(f: Tokens, rest: Tokens)
    requires Closed(f)
    ensures FirstCut(OrLevel, f + [Key(KAnd)] + rest, Start) == |f| + 1 + FirstCut(OrLevel, rest, Start)
  {
    var tail := [Key(KAnd)] + rest;
    assert tail[1..] == rest && f + [Key(KAnd)] + rest == f + tail;
    FirstCutAppend(OrLevel, f, tail, Start);
  }

  lemma OrAligned(f: Tokens, rest: Tokens, m: Cond, runs: seq<seq<Cond>>, env: Env)
    requires Closed(f) && m.meaning == ReadOr(f, env)
    requires runs != [] && Aligned(rest, runs, env)
    ensures Aligned(f + [Key(KOr)] + rest, [[m]] + runs, env)
  {
    var ts := f + [Key(KOr)] + rest;
    OrCut(f, rest);
    AlignedReads(rest, runs, env);
    assert ts[..|f|] == f && ts[|f| + 1..] == rest;
    assert ([[m]] + runs)[1..] == runs;
  }

  lemma ClosedReadsAnd(f: Tokens, env: Env)
    requires Closed(f)
    ensures ReadOr(f, env) == ReadAnd(f, env) && Run(f, Start) == Start
  {
  }

  lemma AndAligned(f: Tokens, rest: Tokens, m: Cond, runs: seq<seq<Cond>>, env: Env)
    requires Closed(f) && m.meaning == ReadOr(f, env)
    requires runs != [] && runs[0] != [] && Aligned(rest, runs, env)
    ensures Aligned(f + [Key(KAnd)] + rest, [[m] + runs[0]] + runs[1..], env)
  {
    hide ReadAnd, ReadNot, FirstCut, Closed, AnyOf;
    var ts, j := f + [Key(KAnd)] + rest, FirstCut(OrLevel, rest, Start);
    AndKeepsCut(f, rest);
    ClosedReadsAnd(f, env);
    ReadAndAppend(f, rest[..j], env);
    assert ts[..|f| + 1 + j] == f + [Key(KAnd)] + rest[..j];
    if j < |rest| {
      assert ts[|f| + 1 + j + 1..] == rest[j + 1..];
    }
    var all := [[m] + runs[0]] + runs[1..];
    assert all[1..] == runs[1..] && all[0][1..] == runs[0];
  }

  lemma {:induction false} PartsAligned(parts: seq<Part>, env: Env)
    requires parts != [] && forall p <- parts :: Closed(p.text)
    ensures Aligned(PartsText(parts), Runs(Conds(parts, env)), env)
  {
    var f, conds := parts[0].text, Conds(parts, env);
    if |parts| == 1 {
      assert f[..|f|] == f;
    } else {
      PartsAligned(parts[1..], env);
      assert conds[1..] == Conds(parts[1..], env);
      var rest, runs := PartsText(parts[1..]), Runs(conds[1..]);
      if parts[1].joinedByOr {
        OrAligned(f, rest, conds[0], runs, env);
      } else {
        AndAligned(f, rest, conds[0], runs, env);
      }
    }
  }

  /** The flat text means the OR of the AND-runs, whatever ANDs the parts themselves contain. */
  lemma PartsRead(parts: seq<Part>, env: Env)
    requires parts != [] && forall p <- parts :: Closed(p.text)
    ensures ReadOr(PartsText(parts), env) == AnyOf(Runs(Conds(parts, env)))
  {
    PartsAligned(parts, env);
    AlignedReads(PartsText(parts), Runs(Conds(parts, env)), env);
  }

  /** Text that begins with a combinator has no reading. */
  lemma LeadingJoiner(byOr: bool, ts: Tokens, env: Env)
    ensures ReadOr([Joiner(byOr)] + ts, env) == None
  {
    var all := [Joiner(byOr)] + ts;
    assert all[..0] == [];
    if !byOr {
      var i := FirstCut(OrLevel, all, Start);
      assert FirstCut(AndLevel, all[..i], Start) == 0 && all[..i][..0] == [];
      assert ReadNot([], env) == None;
      assert ReadAnd(all[..i], env) == None;
      assert all[..|all|] == all;
    } else {
      assert ReadAnd([], env) == ReadNot([], env) == None;
    }
  }

  // ----- when the reading exists -----

  lemma {:induction false} AllOfExists(run: seq<Cond>)
    ensures AllOf(run).Some? <==> forall c <- run :: c.meaning.Some?
  {
    if run != [] {
      AllOfExists(run[1..]);
      assert forall c <- run :: c == run[0] || c in run[1..];
    }
  }

  lemma {:induction false} AnyOfExists(runs: seq<seq<Cond>>)
    ensures AnyOf(runs).Some? <==> forall run <- runs :: AllOf(run).Some?
  {
    if runs != [] {
      var first, rest := runs[0], runs[1..];
      AnyOfExists(rest);
      assert AnyOf(runs).Some? <==> AllOf(first).Some? && AnyOf(rest).Some?;
      assert first in runs && forall run <- rest :: run in runs;
      assert forall run <- runs :: run == first || run in rest;
    }
  }

  lemma {:induction false} RunsMembers(conds: seq<Cond>, c: Cond)
    ensures c in conds <==> exists run <- Runs(conds) :: c in run
  {
    var runs := Runs(conds);
    if |conds| == 1 {
      assert conds in runs;
    } else if |conds| > 1 {
      var rest := Runs(conds[1..]);
      RunsMembers(conds[1..], c);
      assert c in conds <==> c == conds[0] || c in conds[1..];
      assert runs[0] in runs && conds[0] in runs[0];
      var moved := if conds[1].joinedByOr then [conds[0]] else [conds[0]] + rest[0];
      assert runs == [moved] + (if conds[1].joinedByOr then rest else rest[1..]);
      assert rest == [rest[0]] + rest[1..];
      if run :| run in rest && c in run {
        assert (if run in runs then run else moved) in runs;
      }
    }
  }

  /** It exists exactly when every condition's own reading does. */
  lemma RunsExist(conds: seq<Cond>)
    ensures AnyOf(Runs(conds)).Some? <==> forall c <- conds :: c.meaning.Some?
  {
    AnyOfExists(Runs(conds));
    forall run <- Runs(conds)
      ensures AllOf(run).Some? <==> forall c <- run :: c.meaning.Some?
    {
      AllOfExists(run);
    }
    forall c: Cond
      ensures c in conds <==> exists run <- Runs(conds) :: c in run
    {
      RunsMembers(conds, c);
    }
  }
}
