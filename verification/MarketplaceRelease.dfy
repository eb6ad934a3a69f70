/**
 Creating a release branch and tag in a temporary worktree, with clean-up on failure. However
 the commands fail, an attempt that raises without a failed clean-up leaves branches and tags
 as they were, and one that returns leaves both behind and the worktree gone.
 */
module MarketplaceRelease {
  import opened Text

  // ----- the release a tag names -----

  datatype Release = Release(version: string, branch: string)

  const TAG_PREFIX: string := "studio-v"
  const BRANCH_PREFIX: string := "dqx-studio/marketplace/v"

  predicate Numeral(s: string) {
    s != "" && forall c <- s :: IsDigit(c)
  }

  /** `[0-9]+\.[0-9]+\.[0-9]+` */
  predicate IsVersion(s: string) {
    var parts := SplitOn(s, '.');
    |parts| == 3 && forall p <- parts :: Numeral(p)
  }

  /** `_studio_release`; None is the ValueError. */
  function StudioRelease(tag: string): Option<Release> {
    if TAG_PREFIX <= tag && IsVersion(tag[|TAG_PREFIX|..]) then
      Some(Release(tag[|TAG_PREFIX|..], BRANCH_PREFIX + tag[|TAG_PREFIX|..]))
    else None
  }

  lemma {:induction false} PiecesJoin(s: string, c: char)
    ensures Join(SplitOn(s, c), [c]) == s
  {
    if s != "" {
      var rest := SplitOn(s[1..], c);
      PiecesJoin(s[1..], c);
      if s[0] == c {
        assert ([""] + rest)[1..] == rest;
        assert [c] + Join(rest, [c]) == s;
      } else {
        assert ([[s[0]] + rest[0]] + rest[1..])[1..] == rest[1..];
        assert [s[0]] + Join(rest, [c]) == s;
        if |rest| > 1 {
          Regroup([s[0]], rest[0], [c]);
          Regroup([s[0]], rest[0] + [c], Join(rest[1..], [c]));
        }
      }
    }
  }

  lemma ThreePieces(a: string, b: string, c: string)
    ensures Join([a, b, c], ".") == a + "." + (b + "." + c)
  {
    assert [b, c][1..] == [c] && Join([c], ".") == c;
    assert Join([b, c], ".") == b + "." + c;
    assert [a, b, c][1..] == [b, c];
  }

  /** Three runs of digits with a dot between. */
  ghost predicate ThreeNumbers(version: string) {
    exists a, b, c :: Numeral(a) && Numeral(b) && Numeral(c) && version == a + "." + (b + "." + c)
  }

  lemma VersionSplits(version: string)
    requires IsVersion(version)
    ensures ThreeNumbers(version)
  {
    hide SplitOn, Numeral;
    var parts := SplitOn(version, '.');
    PiecesJoin(version, '.');
    ThreePieces(parts[0], parts[1], parts[2]);
    assert parts == [parts[0], parts[1], parts[2]] && ['.'] == ".";
    assert parts[0] in parts && parts[1] in parts && parts[2] in parts;
  }

  lemma NumeralHasNoDot(s: string)
    requires Numeral(s)
    ensures '.' !in s
  {
  }

  lemma NumbersMakeVersion(a: string, b: string, c: string)
    requires Numeral(a) && Numeral(b) && Numeral(c)
    ensures IsVersion(a + "." + (b + "." + c))
  {
    hide SplitOn, Numeral;
    NumeralHasNoDot(a);
    NumeralHasNoDot(b);
    NumeralHasNoDot(c);
    SplitFirst(a, b + "." + c, '.');
    SplitFirst(b, c, '.');
    SplitPlain(c, '.');
    assert ['.'] == ".";
    assert SplitOn(b + "." + c, '.') == [b] + [c];
    assert [a] + ([b] + [c]) == [a, b, c];
  }

  lemma VersionIff(version: string)
    ensures IsVersion(version) <==> ThreeNumbers(version)
  {
    hide IsVersion;
    if IsVersion(version) {
      VersionSplits(version);
    }
    if ThreeNumbers(version) {
      var a, b, c :| Numeral(a) && Numeral(b) && Numeral(c) && version == a + "." + (b + "." + c);
      NumbersMakeVersion(a, b, c);
    }
  }

  /** A tag names a release exactly when it is the prefix and a version of three numbers; the
      release is that version's, on the branch of that version, so different tags get different
      branches. */
  lemma TagsNameReleases(version: string, tag: string, other: string)
    ensures StudioRelease("studio-v" + version) ==
            if IsVersion(version) then Some(Release(version, "dqx-studio/marketplace/v" + version)) else None
    ensures IsVersion(version) <==> ThreeNumbers(version)
    ensures StudioRelease(tag).Some? ==> tag == "studio-v" + StudioRelease(tag).value.version
    ensures StudioRelease(tag).Some? && StudioRelease(other).Some? && tag != other ==>
              StudioRelease(tag).value.branch != StudioRelease(other).value.branch
  {
    hide IsVersion, ThreeNumbers;
    VersionIff(version);
    assert ("studio-v" + version)[8..] == version;
    if StudioRelease(tag).Some? && StudioRelease(other).Some? {
      var a, b := StudioRelease(tag).value, StudioRelease(other).value;
      assert tag == TAG_PREFIX + a.version && other == TAG_PREFIX + b.version;
      assert a.branch[|BRANCH_PREFIX|..] == a.version && b.branch[|BRANCH_PREFIX|..] == b.version;
    }
  }

  // ----- the repository and the commands -----

  type Commit = nat

  /** Local branches and tags, and the branch checked out in the temporary worktree. */
  datatype Git = Git(branches: map<string, Commit>, tags: map<string, Commit>, worktree: Option<string>)

  datatype Command =
    | ShowTag(tag: string)
    | ShowBranch(branch: string)
    | MakeBranch(branch: string, at: Commit)
    | AddWorktree(branch: string)
    | Build            // a build, test, staging or verification command: no branch or tag moves
    | UnchangedIndex   // succeeds when nothing is staged
    | CommitAll(made: Commit)
    | MakeTag(tag: string)
    | RemoveWorktree
    | Prune
    | DeleteTag(tag: string)
    | DeleteBranch(branch: string)

  /** How a command ends: exit status zero or not, or it could not be run at all. */
  datatype Exit = Zero | NonZero | Crash

  /** What git itself demands. */
  predicate Allowed(git: Git, c: Command) {
    match c
    case ShowTag(tag) => tag in git.tags
    case ShowBranch(branch) => branch in git.branches
    case MakeBranch(branch, _) => branch !in git.branches
    case AddWorktree(branch) => branch in git.branches && git.worktree.None?
    case CommitAll(_) => git.worktree.Some? && git.worktree.value in git.branches
    case MakeTag(tag) => tag !in git.tags && git.worktree.Some? && git.worktree.value in git.branches
    case RemoveWorktree => git.worktree.Some?
    case DeleteTag(tag) => tag in git.tags
    case DeleteBranch(branch) => branch in git.branches && git.worktree != Some(branch)
    case _ => true
  }

  function Effect(git: Git, c: Command): Git
    requires Allowed(git, c)
  {
    match c
    case MakeBranch(branch, at) => git.(branches := git.branches[branch := at])
    case AddWorktree(branch) => git.(worktree := Some(branch))
    case CommitAll(made) => git.(branches := git.branches[git.worktree.value := made])
    case MakeTag(tag) => git.(tags := git.tags[tag := git.branches[git.worktree.value]])
    case RemoveWorktree => git.(worktree := None)
    case DeleteTag(tag) => git.(tags := git.tags - {tag})
    case DeleteBranch(branch) => git.(branches := git.branches - {branch})
    case _ => git
  }

  /** A command that was run and how it ended. */
  datatype Ran = Ran(command: Command, exit: Exit)

  /** What a release needs of a command: that it succeeds, except that the tag and the branch must
      not be found and that something must be staged. */
  predicate AsNeeded(r: Ran) {
    if r.command.ShowTag? || r.command.ShowBranch? || r.command.UnchangedIndex? then r.exit.NonZero? else r.exit.Zero?
  }

  predicate AllAsNeeded(ran: seq<Ran>) {
    forall r <- ran :: AsNeeded(r)
  }

  function CommandsOf(ran: seq<Ran>): seq<Command> {
    seq(|ran|, i requires 0 <= i < |ran| => ran[i].command)
  }

  function Builds(n: nat): seq<Command> {
    seq(n, i => Build)
  }

  lemma BuildsSnoc(n: nat)
    ensures Builds(n + 1) == Builds(n) + [Build] && Builds(0) == []
  {
  }

  lemma RanOne(c: Command, exit: Exit)
    ensures CommandsOf([Ran(c, exit)]) == [c] && (AllAsNeeded([Ran(c, exit)]) <==> AsNeeded(Ran(c, exit)))
  {
  }

  lemma RanNothing()
    ensures CommandsOf([]) == [] && AllAsNeeded([])
  {
  }

  /** Commands that follow others in the log. */
  lemma RanThen(log: seq<Ran>, a: seq<Ran>, b: seq<Ran>)
    ensures log + a + b == log + (a + b)
    ensures CommandsOf(a + b) == CommandsOf(a) + CommandsOf(b)
    ensures AllAsNeeded(a + b) <==> AllAsNeeded(a) && AllAsNeeded(b)
  {
    assert forall r :: r in a + b <==> r in a || r in b;
  }

  /** Runs commands; `exits` decides which of them fail, and a failing one has no effect. */
  class CommandRunner {
    const exits: nat -> Exit
    var calls: nat
    var git: Git
    ghost var log: seq<Ran>

    method Run(c: Command) returns (exit: Exit)
      modifies this
      ensures calls == old(calls) + 1
      ensures exit == if exits(old(calls)).Zero? && !Allowed(old(git), c) then NonZero else exits(old(calls))
      ensures git == if exit.Zero? then Effect(old(git), c) else old(git)
      ensures log == old(log) + [Ran(c, exit)]
    {
      exit := exits(calls);
      calls := calls + 1;
      if exit.Zero? {
        if Allowed(git, c) {
          git := Effect(git, c);
        } else {
          exit := NonZero;
        }
      }
      log := log + [Ran(c, exit)];
    }
  }

  // ----- the steps between the first change and the clean-up -----

  /** The flags the clean-up looks at. */
  datatype Flags = Flags(branchCreated: bool, created: bool, tagCreated: bool, complete: bool)

  /** The flags tell what was changed, and nothing else was. */
  ghost predicate Tracked(before: Git, now: Git, flags: Flags, tag: string, branch: string) {
    && now.worktree == (if flags.created then Some(branch) else None)
    && (if flags.branchCreated then
          branch !in before.branches && branch in now.branches && now.branches - {branch} == before.branches
        else now.branches == before.branches)
    && (if flags.tagCreated then tag !in before.tags && tag in now.tags && now.tags - {tag} == before.tags
        else now.tags == before.tags)
    && (flags.created ==> flags.branchCreated)
    && (flags.tagCreated ==> flags.created && now.tags[tag] == now.branches[branch])
    && (flags.complete ==> flags.tagCreated)
  }

  lemma AddedKey(m: map<string, Commit>, k: string, v: Commit)
    requires k !in m
    ensures m[k := v] - {k} == m
  {
  }

  lemma MovedKey(m: map<string, Commit>, k: string, v: Commit)
    ensures m[k := v] - {k} == m - {k}
  {
  }

  method MakeBranchAndWorktree(commands: CommandRunner, branch: string, source: Commit)
    returns (flags: Flags, ghost ran: seq<Ran>)
    requires commands.git.worktree.None?
    modifies commands
    ensures commands.log == old(commands.log) + ran && (flags.created <==> AllAsNeeded(ran))
    ensures flags.created ==> CommandsOf(ran) == [MakeBranch(branch, source), AddWorktree(branch)]
    ensures !flags.tagCreated && !flags.complete
    ensures forall tag :: Tracked(old(commands.git), commands.git, flags, tag, branch)
  {
    hide CommandsOf, AllAsNeeded, Builds;
    flags := Flags(false, false, false, false);
    var exit := commands.Run(MakeBranch(branch, source));
    ran := [Ran(MakeBranch(branch, source), exit)];
    RanOne(MakeBranch(branch, source), exit);
    if !exit.Zero? {
      return;
    }
    AddedKey(old(commands.git.branches), branch, source);
    flags := flags.(branchCreated := true);
    exit := commands.Run(AddWorktree(branch));
    RanOne(AddWorktree(branch), exit);
    RanThen(old(commands.log), ran, [Ran(AddWorktree(branch), exit)]);
    ran := ran + [Ran(AddWorktree(branch), exit)];
    if !exit.Zero? {
      return;
    }
    flags := flags.(created := true);
  }

  /** Building, testing and verification commands: they change nothing, and the first failure ends them. */
  method Verify(commands: CommandRunner, count: nat) returns (ok: bool, ghost ran: seq<Ran>)
    modifies commands
    ensures commands.git == old(commands.git)
    ensures commands.log == old(commands.log) + ran && (ok <==> AllAsNeeded(ran))
    ensures ok ==> CommandsOf(ran) == Builds(count)
  {
    hide CommandsOf, AllAsNeeded, Builds;
    ran := [];
    RanNothing();
    BuildsSnoc(0);
    for step := 0 to count
      invariant commands.git == old(commands.git)
      invariant commands.log == old(commands.log) + ran && AllAsNeeded(ran) && CommandsOf(ran) == Builds(step)
    {
      var exit := commands.Run(Build);
      RanOne(Build, exit);
      RanThen(old(commands.log), ran, [Ran(Build, exit)]);
      BuildsSnoc(step);
      ran := ran + [Ran(Build, exit)];
      if !exit.Zero? {
        return false, ran;
      }
    }
    ok := true;
  }

  /** Installing, building and testing; staging; a check that something changed; the commit. */
  method BuildAndCommit(commands: CommandRunner, made: Commit) returns (ok: bool, ghost ran: seq<Ran>)
    modifies commands
    ensures commands.log == old(commands.log) + ran && (ok <==> AllAsNeeded(ran))
    ensures ok ==> CommandsOf(ran) == Builds(5) + [UnchangedIndex, CommitAll(made)]
    ensures if ok then
              && Allowed(old(commands.git), CommitAll(made))
              && commands.git == Effect(old(commands.git), CommitAll(made))
            else commands.git == old(commands.git)
  {
    hide CommandsOf, AllAsNeeded, Builds;
    ok, ran := Verify(commands, 5);
    if !ok {
      return;
    }
    var changed := commands.Run(UnchangedIndex);
    RanOne(UnchangedIndex, changed);
    RanThen(old(commands.log), ran, [Ran(UnchangedIndex, changed)]);
    ran := ran + [Ran(UnchangedIndex, changed)];
    if !changed.NonZero? {
      ok := false;
      return;
    }
    var exit := commands.Run(CommitAll(made));
    RanOne(CommitAll(made), exit);
    RanThen(old(commands.log), ran, [Ran(CommitAll(made), exit)]);
    ran := ran + [Ran(CommitAll(made), exit)];
    ok := exit.Zero?;
  }

  /** Every step of a release that works, in order. */
  function TrySteps(tag: string, branch: string, source: Commit, made: Commit): seq<Command> {
    [MakeBranch(branch, source), AddWorktree(branch)] + (Builds(5) + [UnchangedIndex, CommitAll(made)])
    + Builds(1) + [MakeTag(tag)] + Builds(4)
  }

  /** The body of the try block. */
  method TryRelease(commands: CommandRunner, tag: string, branch: string, source: Commit, made: Commit)
    returns (flags: Flags, ghost ran: seq<Ran>)
    requires commands.git.worktree.None?
    modifies commands
    ensures Tracked(old(commands.git), commands.git, flags, tag, branch)
    ensures commands.log == old(commands.log) + ran && (flags.complete <==> AllAsNeeded(ran))
    ensures flags.complete ==> CommandsOf(ran) == TrySteps(tag, branch, source, made)
  {
    hide CommandsOf, AllAsNeeded, Builds;
    flags, ran := MakeBranchAndWorktree(commands, branch, source);
    if !flags.created {
      return;
    }
    assert Tracked(old(commands.git), commands.git, flags, tag, branch);
    label Added:
    var ok; ghost var more;
    ok, more := BuildAndCommit(commands, made);
    RanThen(old(commands.log), ran, more);
    ran := ran + more;
    MovedKey(old@Added(commands.git.branches), branch, made);
    if !ok {
      return;
    }
    ok, more := Verify(commands, 1);
    RanThen(old(commands.log), ran, more);
    ran := ran + more;
    if !ok {
      return;
    }
    var exit := commands.Run(MakeTag(tag));
    RanOne(MakeTag(tag), exit);
    RanThen(old(commands.log), ran, [Ran(MakeTag(tag), exit)]);
    ran := ran + [Ran(MakeTag(tag), exit)];
    if !exit.Zero? {
      return;
    }
    AddedKey(old(commands.git.tags), tag, commands.git.branches[branch]);
    flags := flags.(tagCreated := true);
    ok, more := Verify(commands, 4);
    RanThen(old(commands.log), ran, more);
    ran := ran + more;
    flags := flags.(complete := ok);
  }

  // ----- the clean-up -----

  method Cleanup(commands: CommandRunner, c: Command, failures: nat) returns (now: nat, ghost ran: seq<Ran>)
    requires !c.ShowTag? && !c.ShowBranch? && !c.UnchangedIndex?
    modifies commands
    ensures commands.log == old(commands.log) + ran && (now == failures <==> AllAsNeeded(ran))
    ensures CommandsOf(ran) == [c]
    ensures || (now == failures && Allowed(old(commands.git), c) && commands.git == Effect(old(commands.git), c))
            || (now == failures + 1 && commands.git == old(commands.git))
  {
    var exit := commands.Run(c);
    ran := [Ran(c, exit)];
    RanOne(c, exit);
    now := if exit.Zero? then failures else failures + 1;
  }

  /** The tag and the branch, when this release made them. */
  method DeleteMade(commands: CommandRunner, tag: string, branch: string, flags: Flags, failures: nat)
    returns (now: nat, ghost ran: seq<Ran>)
    modifies commands
    ensures commands.log == old(commands.log) + ran && (now == failures <==> AllAsNeeded(ran))
    ensures CommandsOf(ran) == (if flags.tagCreated then [DeleteTag(tag)] else [])
                               + (if flags.branchCreated then [DeleteBranch(branch)] else [])
    ensures now >= failures && commands.git.worktree == old(commands.git.worktree)
    ensures commands.git.tags == old(commands.git.tags)
            || (flags.tagCreated && commands.git.tags == old(commands.git.tags) - {tag})
    ensures commands.git.branches == old(commands.git.branches)
            || (flags.branchCreated && commands.git.branches == old(commands.git.branches) - {branch})
    ensures now == failures && flags.tagCreated ==> commands.git.tags == old(commands.git.tags) - {tag}
    ensures now == failures && flags.branchCreated ==>
              commands.git.branches == old(commands.git.branches) - {branch}
  {
    hide CommandsOf, AllAsNeeded, Builds;
    now, ran := failures, [];
    RanNothing();
    ghost var more;
    if flags.tagCreated {
      now, ran := Cleanup(commands, DeleteTag(tag), now);
    }
    if flags.branchCreated {
      now, more := Cleanup(commands, DeleteBranch(branch), now);
      RanThen(old(commands.log), ran, more);
      ran := ran + more;
    }
  }

  /** Everything made is taken away again; a complete release keeps its tag and branch. */
  function CleanUpSteps(tag: string, branch: string, flags: Flags): seq<Command> {
    (if flags.created then [RemoveWorktree] else []) + (if flags.branchCreated then [Prune] else [])
    + (if flags.tagCreated && !flags.complete then [DeleteTag(tag)] else [])
    + (if flags.branchCreated && !flags.complete then [DeleteBranch(branch)] else [])
  }

  /** Worktree first, then the tag and the branch of a release that is not complete. */
  method CleanUp(commands: CommandRunner, tag: string, branch: string, flags: Flags, ghost before: Git)
    returns (failures: nat, ghost ran: seq<Ran>)
    requires Tracked(before, commands.git, flags, tag, branch)
    modifies commands
    ensures commands.log == old(commands.log) + ran && (failures == 0 <==> AllAsNeeded(ran))
    ensures CommandsOf(ran) == CleanUpSteps(tag, branch, flags)
    ensures failures == 0 ==> commands.git.worktree.None?
    ensures failures == 0 && !flags.complete ==> commands.git == before.(worktree := None)
    ensures failures == 0 && flags.complete ==> commands.git == old(commands.git).(worktree := None)
    ensures commands.git.branches - {branch} == before.branches - {branch}
    ensures commands.git.tags - {tag} == before.tags - {tag}
    ensures branch in before.branches ==> commands.git.branches == before.branches
    ensures tag in before.tags ==> commands.git.tags == before.tags
  {
    hide CommandsOf, AllAsNeeded, Builds;
    failures, ran := 0, [];
    RanNothing();
    ghost var more;
    if flags.created {
      failures, ran := Cleanup(commands, RemoveWorktree, failures);
    }
    if flags.branchCreated {
      failures, more := Cleanup(commands, Prune, failures);
      RanThen(old(commands.log), ran, more);
      ran := ran + more;
    }
    if !flags.complete {
      failures, more := DeleteMade(commands, tag, branch, flags, failures);
      RanThen(old(commands.log), ran, more);
      ran := ran + more;
    }
  }

  // ----- the whole attempt -----

  datatype Ending = Returned(branch: string) | Raised | CleanupFailed

  /** What the reads before the first change found: the root, the source commit, the version. */
  datatype Facts = Facts(atRoot: bool, source: Option<Commit>, version: string)

  /** The commands that look at the repository before anything changes. */
  method Precheck(commands: CommandRunner, tag: string, release: Release, facts: Facts)
    returns (ok: bool, ghost ran: seq<Ran>)
    modifies commands
    ensures commands.git == old(commands.git)
    ensures commands.log == old(commands.log) + ran
    ensures ok <==> facts.atRoot && facts.source.Some? && facts.version == release.version && AllAsNeeded(ran)
    ensures ok ==> CommandsOf(ran) == [Build, ShowTag(tag)] + Builds(2) + [ShowBranch(release.branch)]
  {
    hide CommandsOf, AllAsNeeded, Builds;
    var exit := commands.Run(Build);
    ran := [Ran(Build, exit)];
    RanOne(Build, exit);
    if !exit.Zero? || !facts.atRoot {
      return false, ran;
    }
    exit := commands.Run(ShowTag(tag));
    RanOne(ShowTag(tag), exit);
    RanThen(old(commands.log), ran, [Ran(ShowTag(tag), exit)]);
    ran := ran + [Ran(ShowTag(tag), exit)];
    if !exit.NonZero? || facts.source.None? {
      return false, ran;
    }
    var resolved; ghost var more;
    resolved, more := Verify(commands, 2);
    RanThen(old(commands.log), ran, more);
    ran := ran + more;
    if !resolved || facts.version != release.version {
      return false, ran;
    }
    exit := commands.Run(ShowBranch(release.branch));
    RanOne(ShowBranch(release.branch), exit);
    RanThen(old(commands.log), ran, [Ran(ShowBranch(release.branch), exit)]);
    ran := ran + [Ran(ShowBranch(release.branch), exit)];
    ok := exit.NonZero?;
  }

  /** The release is asked for a version that the repository root is at. */
  predicate Fits(tag: string, facts: Facts) {
    && StudioRelease(tag).Some? && facts.atRoot && facts.source.Some?
    && facts.version == StudioRelease(tag).value.version
  }

  /** `release_marketplace`; `made` is the commit that committing creates. It returns exactly when
      the facts fit and every command it runs ends as needed, and has then run every step. */
  method ReleaseMarketplace(commands: CommandRunner, tag: string, facts: Facts, made: Commit)
    returns (end: Ending, ghost ran: seq<Ran>)
    requires commands.git.worktree.None?
    modifies commands
    ensures commands.log == old(commands.log) + ran
    ensures end.Returned? <==> Fits(tag, facts) && AllAsNeeded(ran)
    ensures end.Returned? ==>
              CommandsOf(ran) == [Build, ShowTag(tag)] + Builds(2) + [ShowBranch(end.branch)]
                                 + TrySteps(tag, end.branch, facts.source.value, made) + [RemoveWorktree, Prune]
    ensures var before, now := old(commands.git), commands.git;
            match end
            case Raised => now == before
            case Returned(branch) =>
              && StudioRelease(tag).Some? && branch == StudioRelease(tag).value.branch
              && branch !in before.branches && tag !in before.tags && now.worktree.None?
              && branch in now.branches && tag in now.tags && now.tags[tag] == now.branches[branch]
              && now.branches - {branch} == before.branches && now.tags - {tag} == before.tags
            case CleanupFailed =>
              && StudioRelease(tag).Some?
              && var branch := StudioRelease(tag).value.branch;
              && now.branches - {branch} == before.branches - {branch} && now.tags - {tag} == before.tags - {tag}
              && (branch in before.branches ==> now.branches == before.branches)
              && (tag in before.tags ==> now.tags == before.tags)
  {
    hide CommandsOf, AllAsNeeded, Builds;
    ran := [];
    var release := StudioRelease(tag);
    if release.None? {
      return Raised, ran;
    }
    var branch := release.value.branch;
    var ok; ghost var more;
    ok, ran := Precheck(commands, tag, release.value, facts);
    if !ok {
      return Raised, ran;
    }
    ghost var before := commands.git;
    var flags, failures;
    flags, more := TryRelease(commands, tag, branch, facts.source.value, made);
    RanThen(old(commands.log), ran, more);
    ran := ran + more;
    failures, more := CleanUp(commands, tag, branch, flags, before);
    RanThen(old(commands.log), ran, more);
    ran := ran + more;
    if failures > 0 {
      return CleanupFailed, ran;
    }
    end := if flags.complete then Returned(branch) else Raised;
  }
}
