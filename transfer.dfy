/** The repository-transfer workflow: validate both URLs, name the clone,
    clone it bare, enter it, make sure the history-rewriting tool is there,
    rewrite authorship, add the new remote and mirror-push, with a `finally`
    block that steps up one directory, removes the clone and logs completion.

    The external commands are not interpreted: each one is recorded in a
    trace and succeeds or fails as an `Environment` says.  The state the
    workflow changes is the working directory (a path), the set of existing
    directories, the trace and whether the completion message was logged. */
module Transfer {
  import opened RepoUrl

  /** A directory, as its segments from the root. */
  type Path = seq<string>

  /** The external commands the workflow runs, with the arguments that vary. */
  datatype Command =
    | CloneBare(source: string)
    | FilterRepoHelp
    | InstallFilterRepo
    | RewriteAuthorship(authorName: string, authorEmail: string)
    | AddRemote(destination: string)
    | MirrorPush

  /** How each external command turns out.  `cloneDirectory` is the directory
      `git clone --bare` creates, which is git's choice, not the script's. */
  datatype Environment = Environment(
    cloneSucceeds: bool,
    cloneDirectory: string,
    helpSucceeds: bool,
    helpShowsUsage: bool,
    installSucceeds: bool,
    rewriteSucceeds: bool,
    addRemoteSucceeds: bool,
    pushSucceeds: bool)

  /** The four prompted inputs. */
  datatype Request = Request(source: string, destination: string, authorName: string, authorEmail: string)

  /** How the process ends: normally (exit status 0), through `exit(1)`, or
      through the `UnboundLocalError` the `finally` block raises when it names
      the clone directory before it was ever assigned (exit status 1). */
  datatype Termination = Completed | SystemExit | UnboundBareRepo

  function ExitStatus(t: Termination): (code: int)
    ensures code == 0 <==> t == Completed
  {
    if t == Completed then 0 else 1
  }

  /** What the workflow can change. */
  datatype Machine = Machine(cwd: Path, dirs: set<Path>, trace: seq<Command>, completionLogged: bool)

  /** The exit status of a command, as `run_command` sees it. */
  predicate Succeeds(c: Command, env: Environment)
  {
    match c
    case CloneBare(_) => env.cloneSucceeds
    case FilterRepoHelp => env.helpSucceeds
    case InstallFilterRepo => env.installSucceeds
    case RewriteAuthorship(_, _) => env.rewriteSucceeds
    case AddRemote(_) => env.addRemoteSucceeds
    case MirrorPush => env.pushSucceeds
  }

  /** Whether a call site passes `exit_on_error=True`: every one does except
      the `git filter-repo --help` probe. */
  predicate IsFatal(c: Command)
  {
    !c.FilterRepoHelp?
  }

  /** A command whose failure ends the try block. */
  predicate Aborts(c: Command, env: Environment)
  {
    IsFatal(c) && !Succeeds(c, env)
  }

  // ---------------------------------------------------------------------------
  // One function per state change
  // ---------------------------------------------------------------------------

  /** The directory `os.chdir("..")` moves to; the root is its own parent. */
  function Parent(p: Path): (r: Path)
    ensures p != [] ==> r + [p[|p| - 1]] == p
    ensures p == [] ==> r == []
  {
    if p == [] then [] else p[..|p| - 1]
  }

  /** The directories that remain after `shutil.rmtree(p, ignore_errors=True)`:
      `p` and everything below it are gone, nothing else is touched, and a
      missing `p` is no error. */
  function RemoveTree(dirs: set<Path>, p: Path): (r: set<Path>)
    ensures r <= dirs
    ensures forall d :: d in dirs ==> (d in r <==> !(p <= d))
  {
    set d | d in dirs && !(p <= d)
  }

  /** Running a command appends it to the trace. */
  function Execute(m: Machine, c: Command): Machine
  {
    m.(trace := m.trace + [c])
  }

  /** `git clone --bare source`: on success git adds its clone directory to the
      working directory. */
  function Clone(m: Machine, source: string, env: Environment): Machine
  {
    var m' := Execute(m, CloneBare(source));
    if env.cloneSucceeds then m'.(dirs := m'.dirs + {m'.cwd + [env.cloneDirectory]}) else m'
  }

  /** `os.chdir(name)` succeeds exactly when `name` is a directory here. */
  predicate CanEnter(m: Machine, name: string)
  {
    m.cwd + [name] in m.dirs
  }

  // ---------------------------------------------------------------------------
  // The workflow as a specification
  // ---------------------------------------------------------------------------

  /** The commands run inside the clone if none fails, in order: lines 54
      to 63.  The install only runs when the help text lacks the usage banner. */
  function ToolPlan(req: Request, env: Environment): (p: seq<Command>)
    ensures |p| == if env.helpShowsUsage then 4 else 5
    ensures p[0] == FilterRepoHelp
    ensures InstallFilterRepo in p <==> !env.helpShowsUsage
    ensures p[|p| - 3..] == PublishPlan(req)
    ensures forall i :: 0 < i < |p| ==> IsFatal(p[i])
  {
    [FilterRepoHelp]
    + (if env.helpShowsUsage then [] else [InstallFilterRepo])
    + PublishPlan(req)
  }

  /** The commands after the tool check: lines 58 to 63. */
  function PublishPlan(req: Request): (p: seq<Command>)
    ensures |p| == 3
    ensures p[0] == RewriteAuthorship(req.authorName, req.authorEmail)
    ensures p[1] == AddRemote(req.destination) && p[2] == MirrorPush
    ensures forall i :: 0 <= i < |p| ==> IsFatal(p[i])
  {
    [RewriteAuthorship(req.authorName, req.authorEmail), AddRemote(req.destination), MirrorPush]
  }

  /** Every command a run executes if none fails, in order. */
  function Plan(req: Request, env: Environment): (p: seq<Command>)
    ensures |p| == 1 + |ToolPlan(req, env)|
    ensures p[0] == CloneBare(req.source) && p[1..] == ToolPlan(req, env)
  {
    [CloneBare(req.source)] + ToolPlan(req, env)
  }

  /** `after` is `before` followed by a prefix of `plan`, and of the commands
      added only the last can have aborted. */
  ghost predicate RanPrefix(before: seq<Command>, after: seq<Command>, plan: seq<Command>, env: Environment)
  {
    && before <= after
    && after[|before|..] <= plan
    && forall i :: |before| <= i < |after| - 1 ==> !Aborts(after[i], env)
  }

  /** None of the commands of `plan` aborts. */
  ghost predicate NoneAborts(plan: seq<Command>, env: Environment)
  {
    forall i :: 0 <= i < |plan| ==> !Aborts(plan[i], env)
  }

  /** A command that does not abort, followed by a run that follows `plan`,
      follows `[c] + plan`. */
  lemma RanPrefixCons(before: seq<Command>, c: Command, after: seq<Command>, plan: seq<Command>, env: Environment)
    requires !Aborts(c, env)
    requires RanPrefix(before + [c], after, plan, env)
    ensures RanPrefix(before, after, [c] + plan, env)
    ensures NoneAborts([c] + plan, env) <==> NoneAborts(plan, env)
  {
    var b1 := before + [c];
    assert after[|before|..] == [c] + after[|b1|..];
    assert after[|before|] == c;
    forall i | |before| <= i < |after| - 1 ensures !Aborts(after[i], env) {
      if i > |before| {
        assert |b1| <= i;
      }
    }
    var cp := [c] + plan;
    if NoneAborts(plan, env) {
      forall i | 0 <= i < |cp| ensures !Aborts(cp[i], env) {
        if i > 0 {
          assert cp[i] == plan[i - 1];
        }
      }
    }
    if NoneAborts(cp, env) {
      forall i | 0 <= i < |plan| ensures !Aborts(plan[i], env) {
        assert cp[i + 1] == plan[i];
      }
    }
  }

  /** A run that stopped early stopped at an aborting command: it added at
      least one command, and the last one it added aborts. */
  predicate StoppedAtAbort(before: seq<Command>, after: seq<Command>, env: Environment)
  {
    |after| > |before| && Aborts(after[|after| - 1], env)
  }

  /** A plan whose first command aborts stops right after it. */
  lemma AbortingFirstFollowsPlan(before: seq<Command>, after: seq<Command>, plan: seq<Command>, env: Environment)
    requires plan != [] && Aborts(plan[0], env) && after == before + [plan[0]]
    ensures RanPrefix(before, after, plan, env)
    ensures !NoneAborts(plan, env)
  {
    assert after[|before|..] == [plan[0]];
  }

  /** Runs the commands of `plan` in order until one aborts; the flag says
      whether the whole plan ran without an abort.  Only the trace changes. */
  function RunUntilAbort(m: Machine, plan: seq<Command>, env: Environment): (r: (Machine, bool))
    ensures r.0 == m.(trace := r.0.trace)
    decreases |plan|
  {
    if plan == [] then (m, true)
    else
      var m' := Execute(m, plan[0]);
      if Aborts(plan[0], env) then (m', false)
      else RunUntilAbort(m', plan[1..], env)
  }

  /** The commands a run adds to the trace are a prefix of the plan with
      only the last of them aborting; the run goes through exactly when no
      command of the plan aborts, and then it adds the whole plan. */
  lemma {:induction false} RunUntilAbortFollowsPlan(m: Machine, plan: seq<Command>, env: Environment)
    ensures var r := RunUntilAbort(m, plan, env);
            && RanPrefix(m.trace, r.0.trace, plan, env)
            && (r.1 <==> NoneAborts(plan, env))
            && (r.1 ==> r.0.trace == m.trace + plan)
            && (!r.1 ==> StoppedAtAbort(m.trace, r.0.trace, env))
    decreases |plan|
  {
    if plan != [] {
      var c, rest := plan[0], plan[1..];
      assert plan == [c] + rest;
      var m' := Execute(m, c);
      if Aborts(c, env) {
        assert RunUntilAbort(m, plan, env) == (m', false);
        AbortingFirstFollowsPlan(m.trace, m'.trace, plan, env);
      } else {
        assert RunUntilAbort(m, plan, env) == RunUntilAbort(m', rest, env);
        var r := RunUntilAbort(m', rest, env);
        RunUntilAbortFollowsPlan(m', rest, env);
        RanPrefixCons(m.trace, c, r.0.trace, rest, env);
        assert r.1 ==> r.0.trace == m.trace + ([c] + rest);
      }
    }
  }

  /** One step of `RunUntilAbort`: the first command runs, and the rest
      follow only when it does not abort. */
  lemma RunUntilAbortStep(m: Machine, plan: seq<Command>, env: Environment)
    requires plan != []
    ensures RunUntilAbort(m, plan, env)
            == if Aborts(plan[0], env) then (Execute(m, plan[0]), false)
               else RunUntilAbort(Execute(m, plan[0]), plan[1..], env)
  {
  }

  /** Two environments in which the same commands abort run a plan alike. */
  lemma {:induction false} RunUntilAbortDependsOnAbortsOnly(m: Machine, plan: seq<Command>, env: Environment, env': Environment)
    requires forall c :: Aborts(c, env) == Aborts(c, env')
    ensures RunUntilAbort(m, plan, env) == RunUntilAbort(m, plan, env')
    decreases |plan|
  {
    if plan != [] {
      RunUntilAbortDependsOnAbortsOnly(Execute(m, plan[0]), plan[1..], env, env');
    }
  }

  /** Where the try block stopped: the state, the clone directory if line 47
      assigned it, whether line 52 entered it, and whether the block ran to
      its end. */
  datatype TryOutcome = TryOutcome(machine: Machine, bareRepo: Option<string>, entered: bool, completed: bool)

  /** The try block of `transfer_repo`.  A failed validation or extraction
      exits before line 47; a failed fatal command exits where it runs; a
      missing clone directory makes `os.chdir` raise, and the `except` clause
      turns that into `exit(1)` too. */
  function TryBlock(m: Machine, req: Request, env: Environment): TryOutcome
  {
    if !IsValidRepoUrl(req.source) || !IsValidRepoUrl(req.destination) then
      TryOutcome(m, None, false, false)
    else match ExtractRepoName(req.source)
      case None => TryOutcome(m, None, false, false)
      case Some(name) =>
        var bare := BareRepoName(name);
        var m1 := Clone(m, req.source, env);
        if !env.cloneSucceeds || !CanEnter(m1, bare) then TryOutcome(m1, Some(bare), false, false)
        else
          var r := RunUntilAbort(m1.(cwd := m1.cwd + [bare]), ToolPlan(req, env), env);
          TryOutcome(r.0, Some(bare), true, r.1)
  }

  /** The finally block: `os.chdir("..")`, then `shutil.rmtree(bare_repo)`,
      which raises when `bare_repo` was never assigned, then the log line. */
  function Finally(t: TryOutcome): (Machine, Termination)
  {
    var m := t.machine.(cwd := Parent(t.machine.cwd));
    match t.bareRepo
    case None => (m, UnboundBareRepo)
    case Some(bare) =>
      (m.(dirs := RemoveTree(m.dirs, m.cwd + [bare]), completionLogged := true),
       if t.completed then Completed else SystemExit)
  }

  /** A whole run of `transfer_repo`. */
  function Run(m: Machine, req: Request, env: Environment): (Machine, Termination)
  {
    Finally(TryBlock(m, req, env))
  }

  // ---------------------------------------------------------------------------
  // Properties of a run
  // ---------------------------------------------------------------------------

  /** Both URLs pass and a name can be extracted: line 47 runs. */
  predicate Named(req: Request)
  {
    IsValidRepoUrl(req.source) && IsValidRepoUrl(req.destination) && ExtractRepoName(req.source).Some?
  }

  /** Line 52 runs: the clone succeeded and the directory the script derived
      from the URL exists (it is git's clone directory or was there before). */
  predicate Entered(m: Machine, req: Request, env: Environment)
  {
    && Named(req)
    && env.cloneSucceeds
    && var bare := BareRepoName(ExtractRepoName(req.source).value);
       m.cwd + [bare] in m.dirs + {m.cwd + [env.cloneDirectory]}
  }

  /** What `TryBlockFollowsPlan` states, for one try block. */
  ghost predicate FollowsPlan(m: Machine, req: Request, env: Environment, o: TryOutcome)
  {
    && RanPrefix(m.trace, o.machine.trace, Plan(req, env), env)
    && (o.completed <==> Entered(m, req, env) && NoneAborts(Plan(req, env), env))
    && (o.completed ==> o.machine.trace == m.trace + Plan(req, env))
    && (!Named(req) ==> o.machine.trace == m.trace)
    && (Named(req) && !Entered(m, req, env) ==> o.machine.trace == m.trace + [CloneBare(req.source)])
    && (Entered(m, req, env) && !o.completed ==> StoppedAtAbort(m.trace, o.machine.trace, env))
  }

  /** A run of `plan` after a command `c` that did not abort follows `[c] + plan`. */
  lemma RunAfterFollowsPlan(before: seq<Command>, c: Command, m: Machine, plan: seq<Command>, env: Environment)
    requires !Aborts(c, env) && m.trace == before + [c]
    ensures var r := RunUntilAbort(m, plan, env);
            && RanPrefix(before, r.0.trace, [c] + plan, env)
            && (r.1 <==> NoneAborts([c] + plan, env))
            && (r.1 ==> r.0.trace == before + ([c] + plan))
            && (!r.1 ==> StoppedAtAbort(before, r.0.trace, env))
  {
    RunUntilAbortFollowsPlan(m, plan, env);
    var r := RunUntilAbort(m, plan, env);
    RanPrefixCons(before, c, r.0.trace, plan, env);
  }

  /** The try block after the clone directory was entered. */
  lemma EnteredBlockFollowsPlan(m: Machine, req: Request, env: Environment)
    requires Entered(m, req, env)
    ensures FollowsPlan(m, req, env, TryBlock(m, req, env))
  {
    var tools := ToolPlan(req, env);
    var bare := BareRepoName(ExtractRepoName(req.source).value);
    var m1 := Clone(m, req.source, env);
    var m2 := m1.(cwd := m1.cwd + [bare]);
    RunAfterFollowsPlan(m.trace, CloneBare(req.source), m2, tools, env);
    var r := RunUntilAbort(m2, tools, env);
    assert TryBlock(m, req, env) == TryOutcome(r.0, Some(bare), true, r.1);
  }

  /** The try block when the clone failed or its directory is missing. */
  lemma UnenteredBlockFollowsPlan(m: Machine, req: Request, env: Environment)
    requires Named(req) && !Entered(m, req, env)
    ensures FollowsPlan(m, req, env, TryBlock(m, req, env))
  {
    var p := Plan(req, env);
    assert p[0] == CloneBare(req.source);
    var bare := BareRepoName(ExtractRepoName(req.source).value);
    var m1 := Clone(m, req.source, env);
    assert m1.trace[|m.trace|..] == [p[0]];
    assert TryBlock(m, req, env) == TryOutcome(m1, Some(bare), false, false);
  }

  /** The commands of a run follow the plan, only the last of them can have
      aborted, and the try block completes exactly when the clone directory
      was entered and none of the planned commands aborts.  Where it stops
      early: before any command when the clone was never named, right after
      the clone when it was not entered, and otherwise at an aborting command. */
  lemma TryBlockFollowsPlan(m: Machine, req: Request, env: Environment)
    ensures var o := TryBlock(m, req, env);
            && RanPrefix(m.trace, o.machine.trace, Plan(req, env), env)
            && (o.completed <==> Entered(m, req, env) && NoneAborts(Plan(req, env), env))
            && (o.completed ==> o.machine.trace == m.trace + Plan(req, env))
    ensures var o := TryBlock(m, req, env);
            && (!Named(req) ==> o.machine.trace == m.trace)
            && (Named(req) && !Entered(m, req, env) ==> o.machine.trace == m.trace + [CloneBare(req.source)])
            && (Entered(m, req, env) && !o.completed ==> StoppedAtAbort(m.trace, o.machine.trace, env))
  {
    if Entered(m, req, env) {
      EnteredBlockFollowsPlan(m, req, env);
    } else if Named(req) {
      UnenteredBlockFollowsPlan(m, req, env);
    } else {
      assert m.trace[|m.trace|..] == [];
    }
  }

  /** A rejected URL or an unextractable name stops the run before any
      command: nothing is run, no directory changes, and since the clone
      directory was never named the `finally` block raises before the
      completion message; the working directory still steps up once. */
  lemma UnnamedRunDoesNothing(m: Machine, req: Request, env: Environment)
    requires !Named(req)
    ensures Run(m, req, env).0 == m.(cwd := Parent(m.cwd))
    ensures Run(m, req, env).1 == UnboundBareRepo
  {
  }

  /** The commands run are a prefix of the plan, and a failing fatal command
      is the last one run; a run inside the clone that does not complete
      stopped at such a command, so every command before it ran. */
  lemma CommandsFollowPlan(m: Machine, req: Request, env: Environment)
    ensures RanPrefix(m.trace, Run(m, req, env).0.trace, Plan(req, env), env)
    ensures Entered(m, req, env) && Run(m, req, env).1 != Completed
            ==> StoppedAtAbort(m.trace, Run(m, req, env).0.trace, env)
  {
    TryBlockFollowsPlan(m, req, env);
  }

  /** The outcome of `git filter-repo --help` itself changes nothing. */
  lemma HelpStatusIsIgnored(m: Machine, req: Request, env: Environment, helpSucceeds: bool)
    ensures Run(m, req, env) == Run(m, req, env.(helpSucceeds := helpSucceeds))
  {
    var env' := env.(helpSucceeds := helpSucceeds);
    if Named(req) && env.cloneSucceeds {
      var bare := BareRepoName(ExtractRepoName(req.source).value);
      var m1 := Clone(m, req.source, env);
      RunUntilAbortDependsOnAbortsOnly(m1.(cwd := m1.cwd + [bare]), ToolPlan(req, env), env, env');
    }
  }

  /** The run completes (exit status 0) exactly when the clone directory was
      entered and no planned command aborts; then the whole plan ran. */
  lemma CompletedIffAllSucceed(m: Machine, req: Request, env: Environment)
    ensures Run(m, req, env).1 == Completed <==> Entered(m, req, env) && NoneAborts(Plan(req, env), env)
    ensures Run(m, req, env).1 == Completed ==> Run(m, req, env).0.trace == m.trace + Plan(req, env)
  {
    TryBlockFollowsPlan(m, req, env);
  }

  /** The completion message is logged exactly when the clone directory was
      named; on the earlier exits the `finally` block raises before it. */
  lemma CompletionLoggedIffNamed(m: Machine, req: Request, env: Environment)
    ensures Named(req) ==> Run(m, req, env).0.completionLogged
    ensures !Named(req) ==> Run(m, req, env).0.completionLogged == m.completionLogged
  {
  }

  /** The working directory ends where it started when line 52 ran, and one
      level up otherwise. */
  lemma FinalDirectory(m: Machine, req: Request, env: Environment)
    ensures Run(m, req, env).0.cwd == if Entered(m, req, env) then m.cwd else Parent(m.cwd)
  {
  }

  /** Away from the root, that is an equivalence: the start is restored iff
      the clone directory was entered. */
  lemma RestoredIffEntered(m: Machine, req: Request, env: Environment)
    requires m.cwd != []
    ensures Run(m, req, env).0.cwd == m.cwd <==> Entered(m, req, env)
  {
    FinalDirectory(m, req, env);
    assert |Parent(m.cwd)| < |m.cwd|;
  }

  /** Cleanup removes the clone directory, and everything in it, from the
      directory the process ends in; the only other change to the directories
      is the one the clone made. */
  lemma CleanupRemovesCloneDirectory(m: Machine, req: Request, env: Environment)
    requires Named(req)
    ensures var r := Run(m, req, env).0;
            var bare := BareRepoName(ExtractRepoName(req.source).value);
            var cloned := if env.cloneSucceeds then m.dirs + {m.cwd + [env.cloneDirectory]} else m.dirs;
            r.dirs == RemoveTree(cloned, r.cwd + [bare])
  {
  }

  /** When the clone directory was entered, neither it nor anything in it is
      left once the run ends, whichever step failed. */
  lemma EnteredCloneIsGone(m: Machine, req: Request, env: Environment)
    requires Entered(m, req, env)
    ensures forall d :: d in Run(m, req, env).0.dirs
              ==> !(m.cwd + [BareRepoName(ExtractRepoName(req.source).value)] <= d)
  {
    CleanupRemovesCloneDirectory(m, req, env);
  }

  /** When git names its clone differently from the script (as for a name
      holding an inner `.git`), the script cannot enter it, removes a
      same-named directory one level up instead, and the clone stays. */
  lemma MisnamedCloneIsLeftBehind(m: Machine, req: Request, env: Environment)
    requires Named(req) && env.cloneSucceeds && m.cwd != []
    requires var bare := BareRepoName(ExtractRepoName(req.source).value);
             env.cloneDirectory != bare && m.cwd + [bare] !in m.dirs && m.cwd[|m.cwd| - 1] != bare
    ensures !Entered(m, req, env)
    ensures Run(m, req, env).1 == SystemExit
    ensures m.cwd + [env.cloneDirectory] in Run(m, req, env).0.dirs
  {
    var bare := BareRepoName(ExtractRepoName(req.source).value);
    var c := m.cwd + [env.cloneDirectory];
    var up := Parent(m.cwd) + [bare];
    assert c[|Parent(m.cwd)|] == m.cwd[|m.cwd| - 1];
    assert !(up <= c);
    CleanupRemovesCloneDirectory(m, req, env);
  }

  // ---------------------------------------------------------------------------
  // The cleanup the `finally` block is meant to do
  // ---------------------------------------------------------------------------

  /** The cleanup as intended: return to the directory the run started in,
      remove the clone there if the run entered it, and log completion on
      every path. */
  function FinallyAsIntended(start: Path, t: TryOutcome): (Machine, Termination)
  {
    var m := t.machine.(cwd := start, completionLogged := true);
    var m' := if t.entered && t.bareRepo.Some? then m.(dirs := RemoveTree(m.dirs, start + [t.bareRepo.value])) else m;
    (m', if t.completed then Completed else SystemExit)
  }

  /** A run with the intended cleanup. */
  function RunAsIntended(m: Machine, req: Request, env: Environment): (Machine, Termination)
  {
    FinallyAsIntended(m.cwd, TryBlock(m, req, env))
  }

  /** With the intended cleanup every run ends where it started, logs
      completion, runs the commands the script runs and completes exactly
      when the script's run does.  It removes the entered clone and what lies
      below it, and no other directory. */
  lemma IntendedCleanupRestoresAndLogs(m: Machine, req: Request, env: Environment)
    ensures var r := RunAsIntended(m, req, env);
            && r.0.cwd == m.cwd
            && r.0.completionLogged
            && r.0.trace == Run(m, req, env).0.trace
            && (r.1 == Completed <==> Run(m, req, env).1 == Completed)
    ensures RunAsIntended(m, req, env).0.dirs <= TryBlock(m, req, env).machine.dirs
    ensures forall d :: d in TryBlock(m, req, env).machine.dirs ==>
              (d in RunAsIntended(m, req, env).0.dirs
               <==> !(Entered(m, req, env) && m.cwd + [BareRepoName(ExtractRepoName(req.source).value)] <= d))
  {
    var t := TryBlock(m, req, env);
    assert t.machine.dirs <= m.dirs + {m.cwd + [env.cloneDirectory]};
  }

  /** The script's cleanup differs: a rejected URL away from the root ends
      one level up, without the completion message, with the unbound-variable
      error rather than `exit(1)`. */
  lemma RejectedUrlCleanupDiffers(m: Machine, req: Request, env: Environment)
    requires !IsValidRepoUrl(req.source) && m.cwd != [] && !m.completionLogged
    ensures Run(m, req, env).0.cwd != RunAsIntended(m, req, env).0.cwd
    ensures !Run(m, req, env).0.completionLogged && RunAsIntended(m, req, env).0.completionLogged
    ensures Run(m, req, env).1 == UnboundBareRepo && RunAsIntended(m, req, env).1 == SystemExit
  {
    UnnamedRunDoesNothing(m, req, env);
    IntendedCleanupRestoresAndLogs(m, req, env);
    assert |Parent(m.cwd)| < |m.cwd|;
  }

  /** After a failed clone the intended cleanup leaves every directory as it
      was, including one that already had the clone's name. */
  lemma IntendedCleanupKeepsDirectoriesAfterFailedClone(m: Machine, req: Request, env: Environment)
    requires !env.cloneSucceeds
    ensures RunAsIntended(m, req, env).0.dirs == m.dirs
  {
  }

  /** When the clone fails, the script still steps above the start and
      removes a directory named like the clone there, which the run never
      made; the intended cleanup keeps it. */
  lemma FailedCloneRemovesUnrelatedDirectory(m: Machine, req: Request, env: Environment)
    requires Named(req) && !env.cloneSucceeds && m.cwd != []
    requires Parent(m.cwd) + [BareRepoName(ExtractRepoName(req.source).value)] in m.dirs
    ensures Parent(m.cwd) + [BareRepoName(ExtractRepoName(req.source).value)] !in Run(m, req, env).0.dirs
    ensures Parent(m.cwd) + [BareRepoName(ExtractRepoName(req.source).value)] in RunAsIntended(m, req, env).0.dirs
  {
    var up := Parent(m.cwd) + [BareRepoName(ExtractRepoName(req.source).value)];
    assert |up| < |m.cwd + [BareRepoName(ExtractRepoName(req.source).value)]|;
  }

  // ---------------------------------------------------------------------------
  // The workflow as the process runs it
  // ---------------------------------------------------------------------------

  /** The running process: its working directory, the directories on disk,
      the commands it has run and whether it logged completion. */
  class Process {
    var cwd: Path
    var dirs: set<Path>
    var trace: seq<Command>
    var completionLogged: bool

    function State(): Machine
      reads this
    {
      Machine(cwd, dirs, trace, completionLogged)
    }

    constructor (start: Path, existing: set<Path>)
      ensures State() == Machine(start, existing, [], false)
    {
      cwd, dirs, trace, completionLogged := start, existing, [], false;
    }

    /** `run_command`: runs `c` and reports whether the process must exit,
        which is when a fatal call site sees it fail. */
    method RunCommand(c: Command, env: Environment, exitOnError: bool) returns (exits: bool)
      modifies this
      ensures State() == Execute(old(State()), c)
      ensures exits <==> exitOnError && !Succeeds(c, env)
    {
      trace := trace + [c];
      exits := exitOnError && !Succeeds(c, env);
    }

    /** `git clone --bare source`. */
    method CloneBare(source: string, env: Environment) returns (exits: bool)
      modifies this
      ensures State() == Clone(old(State()), source, env)
      ensures exits <==> !env.cloneSucceeds
    {
      exits := RunCommand(Command.CloneBare(source), env, true);
      if env.cloneSucceeds {
        dirs := dirs + {cwd + [env.cloneDirectory]};
      }
    }

    /** `ensure_git_filter_repo`: probes the tool without exiting on failure,
        and installs it when the usage banner is missing. */
    method EnsureGitFilterRepo(env: Environment) returns (exits: bool)
      modifies this
      ensures State() == old(State()).(trace := old(trace) + [FilterRepoHelp]
                                                 + (if env.helpShowsUsage then [] else [InstallFilterRepo]))
      ensures exits <==> !env.helpShowsUsage && !env.installSucceeds
    {
      var probeExits := RunCommand(FilterRepoHelp, env, false);
      exits := false;
      if !env.helpShowsUsage {
        exits := RunCommand(InstallFilterRepo, env, true);
      }
    }

    /** Lines 54 to 63, run inside the clone: each fatal command that fails
        ends the try block. */
    method RunToolSteps(req: Request, env: Environment) returns (completed: bool)
      modifies this
      ensures (State(), completed) == RunUntilAbort(old(State()), ToolPlan(req, env), env)
    {
      ghost var plan := ToolPlan(req, env);
      ghost var before := State();
      var exits := EnsureGitFilterRepo(env);
      assert plan[0] == FilterRepoHelp;
      RunUntilAbortStep(before, plan, env);
      ghost var rest := plan[1..];
      if env.helpShowsUsage {
        assert State() == Execute(before, FilterRepoHelp);
      } else {
        assert rest[0] == InstallFilterRepo;
        assert State() == Execute(Execute(before, FilterRepoHelp), InstallFilterRepo);
        RunUntilAbortStep(Execute(before, FilterRepoHelp), rest, env);
        if exits {
          return false;
        }
        rest := rest[1..];
      }
      assert rest == PublishPlan(req);
      completed := RunPublishSteps(req, env);
    }

    /** Lines 58 to 63: rewrite the authorship, add the destination remote
        and mirror-push, stopping at the first that fails. */
    method RunPublishSteps(req: Request, env: Environment) returns (completed: bool)
      modifies this
      ensures (State(), completed) == RunUntilAbort(old(State()), PublishPlan(req), env)
    {
      ghost var rest := PublishPlan(req);
      ghost var before := State();
      var exits := RunCommand(RewriteAuthorship(req.authorName, req.authorEmail), env, true);
      RunUntilAbortStep(before, rest, env);
      if exits {
        return false;
      }
      rest := rest[1..];
      before := State();
      exits := RunCommand(AddRemote(req.destination), env, true);
      RunUntilAbortStep(before, rest, env);
      if exits {
        return false;
      }
      rest := rest[1..];
      before := State();
      exits := RunCommand(MirrorPush, env, true);
      RunUntilAbortStep(before, rest, env);
      completed := !exits;
    }

    /** `os.chdir(name)`; `found` is false where it would raise. */
    method ChangeDirectory(name: string) returns (found: bool)
      modifies this
      ensures found <==> CanEnter(old(State()), name)
      ensures State() == if found then old(State()).(cwd := old(cwd) + [name]) else old(State())
    {
      found := cwd + [name] in dirs;
      if found {
        cwd := cwd + [name];
      }
    }

    /** `os.chdir("..")`. */
    method ChangeToParent()
      modifies this
      ensures State() == old(State()).(cwd := Parent(old(cwd)))
    {
      cwd := Parent(cwd);
    }

    /** `shutil.rmtree(name, ignore_errors=True)`, relative to the working directory. */
    method RemoveDirectory(name: string)
      modifies this
      ensures State() == old(State()).(dirs := RemoveTree(old(dirs), old(cwd) + [name]))
    {
      dirs := RemoveTree(dirs, cwd + [name]);
    }

    /** The try block of `transfer_repo` (lines 43 to 63, with the `except`
        clause): it returns at each exit, with what the `finally` block needs to
        know. */
    method TryBlockSteps(req: Request, env: Environment) returns (bareRepo: Option<string>, entered: bool, completed: bool)
      modifies this
      ensures TryOutcome(State(), bareRepo, entered, completed) == TryBlock(old(State()), req, env)
    {
      bareRepo, entered, completed := None, false, false;
      if !IsValidRepoUrl(req.source) || !IsValidRepoUrl(req.destination) {
        return;
      }
      var name := ExtractRepoName(req.source);
      if name.None? {
        return;
      }
      bareRepo := Some(BareRepoName(name.value));
      var exits := CloneBare(req.source, env);
      if exits {
        return;
      }
      entered := ChangeDirectory(bareRepo.value);
      if !entered {
        return;
      }
      completed := RunToolSteps(req, env);
    }

    /** `transfer_repo`: the try block, then the `finally` block, which runs
        whichever way the try block ended. */
    method TransferRepo(req: Request, env: Environment) returns (t: Termination)
      modifies this
      ensures (State(), t) == Run(old(State()), req, env)
    {
      var bareRepo, entered, completed := TryBlockSteps(req, env);
      ChangeToParent();
      if bareRepo.None? {
        return UnboundBareRepo;
      }
      RemoveDirectory(bareRepo.value);
      completionLogged := true;
      t := if completed then Completed else SystemExit;
    }
  }
}
