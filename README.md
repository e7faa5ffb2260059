# gitcheat: repository transfer, modelled in Dafny

`gitcheat.py` moves a Git repository to a new remote and rewrites the
authorship of every commit on the way. It asks for four inputs: the old URL,
the new URL, the new author name and the new author email. Then it runs a
fixed sequence:

1. Check that both URLs look like Git remotes.
2. Derive a local directory name from the old URL.
3. Clone the old repository bare.
4. Enter the clone.
5. Make sure `git filter-repo` is installed.
6. Rewrite the authorship.
7. Add the new remote.
8. Mirror-push.

A `finally` block steps back up one directory, removes the clone and logs
completion.

The model has two modules.

- `RepoUrl` (`repo_url.dfy`) holds the URL logic as total string functions:
  - `IsValidRepoUrl` is the prefix check.
  - `ExtractRepoName` derives the name, with `None` for the `exit(1)` path.
  - `BareRepoName` gives the clone directory.
  - The pattern `/([^/]+?)(\.git)?$` is computed without regular expressions:
    take the text after the last `/`, then drop one trailing `.git` when that
    text is longer than four characters.
  - `MatchAt` is a declarative reading of what a match of the pattern is:
    `NoGroupIffNoMatch` and `GroupIsLeftmostShortest` prove that the computed
    group is the leftmost, shortest match.
  - `str.replace(".git", "")` is `RemoveGit`, a left-to-right,
    non-overlapping deletion.
- `Transfer` (`transfer.dfy`) holds the workflow of `transfer_repo`:
  - `Run` is a specification over a `Machine`. It tracks the working
    directory (a path of segments), the set of existing directories, the
    trace of external commands run, and whether the completion message was
    logged.
  - Each external command succeeds or fails as an `Environment` says.
  - The class `Process` runs the same workflow imperatively, with mutable
    fields and one method per step. `Process.TransferRepo` is proved to
    leave exactly the state and termination `Run` gives.

## Model

| member | source | states |
|---|---|---|
| RepoUrl.IsValidRepoUrl | gitcheat.py:26-30 | `validate_repo_url`: a URL passes iff it starts with `http://`, `https://` or `git@` |
| RepoUrl.SchemeDecidesValidity | gitcheat.py:26-30 | for a URL `scheme://rest`, validation passes iff the scheme is `http` or `https` (or itself starts with `git@`) |
| RepoUrl.OtherSchemesRejected | gitcheat.py:28-30 | the empty string, `ssh://…` and `ftp://…` are rejected; `git@…` is accepted |
| RepoUrl.ExampleUrlAccepted | gitcheat.py:28 | `https://example.com/foo/bar.git` passes validation |
| RepoUrl.LastSlash | gitcheat.py:34 | finds the position of a `/` with no `/` after it, or `None` iff the text has no `/` |
| RepoUrl.MatchedGroup | gitcheat.py:34 | the first group of `re.search`, computed from the last `/`: `None` without a `/` or with nothing after it, otherwise the segment, minus one trailing `.git` when it is longer than four characters |
| RepoUrl.MatchStartsAtLastSlash | gitcheat.py:34 | every match of the pattern starts at the last `/` |
| RepoUrl.NoGroupIffNoMatch | gitcheat.py:34-35 | the search yields no group iff the pattern matches at no position |
| RepoUrl.GroupIsLeftmostShortest | gitcheat.py:34-36 | the group is that of a match, and no match starts further left or has a shorter lazy group |
| RepoUrl.RemoveGit | gitcheat.py:36 | `str.replace(".git", "")`: a left-to-right scan that deletes each `.git` it finds and resumes after it |
| RepoUrl.RemoveGitOnlyDeletes | gitcheat.py:36 | `replace` only deletes: the result is no longer than the input, and each of its characters comes from the input |
| RepoUrl.RemoveGitKeepsCleanText | gitcheat.py:36 | a text without `.git` is unchanged |
| RepoUrl.RemoveGitCutsFirstOccurrence | gitcheat.py:36 | the first `.git` is deleted and the scan resumes right after it |
| RepoUrl.RemoveGitSinglePass | gitcheat.py:36 | one pass: `.gi.gitt` becomes `.git`, which a second pass would delete |
| RepoUrl.RemoveGitInnerOccurrence | gitcheat.py:36 | `foo.github.io` becomes `foohub.io` |
| RepoUrl.ExtractRepoName | gitcheat.py:32-38 | an extracted name has no `/` and is no longer than the text after the last `/` |
| RepoUrl.ExtractFailsIff | gitcheat.py:34-38 | extraction fails iff the URL has no `/` or ends in `/` |
| RepoUrl.ExtractFromLastSegment | gitcheat.py:34-36 | for `prefix/segment`, the name is `replace` applied to the segment, minus one trailing `.git` only if the segment is longer than four characters |
| RepoUrl.ExtractStripsTrailingGit | gitcheat.py:34-36 | `prefix/name.git` gives `name` when `name` is non-empty and free of `/` and `.git` |
| RepoUrl.ExtractKeepsPlainName | gitcheat.py:34-36 | `prefix/name` gives `name` under the same conditions |
| RepoUrl.DotGitSegmentGivesEmptyName | gitcheat.py:34-36 | a last segment of exactly `.git` gives the empty name |
| RepoUrl.InnerGitAlsoRemoved | gitcheat.py:34-36 | a last segment `foo.github.io` gives `foohub.io` |
| RepoUrl.RepeatedSuffixAllRemoved | gitcheat.py:34-36 | a last segment `a.git.git` gives `a` |
| RepoUrl.HostOnlyUrlNamesTheHost | gitcheat.py:34-36 | `https://github.com`, which names no repository, gives the name `github.com` |
| RepoUrl.BareRepoName | gitcheat.py:47 | the clone directory is the name followed by `.git` |
| RepoUrl.ExampleUrlName | gitcheat.py:34-47 | `https://example.com/foo/bar.git` gives `bar`, cloned into `bar.git` |
| Transfer.ExitStatus | gitcheat.py:65-72 | the exit status is 0 iff the run completed normally |
| Transfer.Parent | gitcheat.py:70 | `chdir("..")` drops the last path segment; the root stays the root |
| Transfer.RemoveTree | gitcheat.py:71 | `rmtree` removes the directory and exactly what lies below it; a missing directory is no error |
| Transfer.Clone | gitcheat.py:50 | `git clone --bare` is recorded, and on success git's clone directory appears in the working directory |
| Transfer.ToolPlan | gitcheat.py:54-63 | inside the clone the help probe runs first; the install is among the commands iff the usage banner is missing; the last three are the publish commands; every command but the probe is fatal |
| Transfer.PublishPlan | gitcheat.py:57-63 | rewrite the authorship with the new name and email, add the destination remote, mirror-push, in that order; all three are fatal |
| Transfer.Plan | gitcheat.py:50-63 | the clone of the source comes first, and the tool and publish commands follow it |
| Transfer.RunUntilAbort | gitcheat.py:12-15 | running commands changes only the trace |
| Transfer.RunUntilAbortFollowsPlan | gitcheat.py:12-15 | the commands run are a prefix of the plan, and only the last one can have aborted; the run goes through iff no planned command aborts, and then the whole plan ran; a run that stops early stops at an aborting command |
| Transfer.RunUntilAbortDependsOnAbortsOnly | gitcheat.py:14-15 | two environments that abort the same commands give the same run |
| Transfer.TryBlock | gitcheat.py:42-67 | the try block: both validations, the extraction, the clone, the `chdir` and the tool steps, ending at the first exit, with the bound clone name, whether the clone was entered and whether the block completed |
| Transfer.Finally | gitcheat.py:69-72 | the `finally` block: step up one directory, then either raise on the unbound name or remove the named directory there and log completion |
| Transfer.Run | gitcheat.py:40-72 | `transfer_repo`: the try block followed by the `finally` block |
| Transfer.StoppedAtAbort | gitcheat.py:14-15 | a run that stopped early added at least one command, and the last one it added aborts |
| Transfer.TryBlockFollowsPlan | gitcheat.py:42-67 | the try block runs a prefix of the plan; it completes iff the clone was entered and no planned command aborts, and then the whole plan ran; otherwise it runs nothing when the name is unbound, only the clone when the clone was not entered, and stops at an aborting command inside the clone |
| Transfer.UnnamedRunDoesNothing | gitcheat.py:43-71 | a rejected URL or an unextractable name runs no command and changes only the working directory, which moves up one level; the run ends with the unbound-variable error |
| Transfer.CommandsFollowPlan | gitcheat.py:50-63 | the commands of a whole run follow the fixed order, and none runs after an aborting one; a run inside the clone that does not complete stopped at an aborting command |
| Transfer.HelpStatusIsIgnored | gitcheat.py:21-22 | the exit status of `git filter-repo --help` does not change the run |
| Transfer.CompletedIffAllSucceed | gitcheat.py:42-72 | the run completes iff the clone was entered and no planned command aborts; then every planned command ran |
| Transfer.CompletionLoggedIffNamed | gitcheat.py:69-72 | the completion message is logged iff line 47 ran; otherwise that flag is unchanged |
| Transfer.FinalDirectory | gitcheat.py:52-70 | the run ends in the starting directory if line 52 entered the clone, and one level up otherwise |
| Transfer.RestoredIffEntered | gitcheat.py:52-70 | away from the root, the starting directory is restored iff the clone was entered |
| Transfer.CleanupRemovesCloneDirectory | gitcheat.py:69-71 | once the name is known, the final directories are those after the clone, minus the named directory's tree under the final working directory |
| Transfer.EnteredCloneIsGone | gitcheat.py:69-71 | after the clone was entered, nothing of it remains |
| Transfer.MisnamedCloneIsLeftBehind | gitcheat.py:50-71 | if git's clone directory differs from the derived name, no directory of the derived name exists in the working directory, and the working directory is not itself named so, then the clone cannot be entered, the run exits with status 1 and git's clone stays on disk |
| Transfer.FinallyAsIntended | gitcheat.py:69-72 | the cleanup as intended: return to the starting directory, remove the clone there only if the run entered it, and log completion on every path |
| Transfer.RunAsIntended | gitcheat.py:40-72 | the same try block followed by the intended cleanup |
| Transfer.IntendedCleanupRestoresAndLogs | gitcheat.py:69-72 | with the intended cleanup every run ends in its starting directory, logs completion, runs the same commands and completes exactly when the script's run does; it removes the entered clone's tree and no other directory |
| Transfer.IntendedCleanupKeepsDirectoriesAfterFailedClone | gitcheat.py:69-71 | after a failed clone the intended cleanup leaves every directory as it was, including one that already had the clone's name |
| Transfer.RejectedUrlCleanupDiffers | gitcheat.py:69-72 | for a rejected source URL away from the root, the script ends one level up, never logs completion and ends with the unbound-variable error, where the intended cleanup returns to the start, logs and exits with status 1 |
| Transfer.FailedCloneRemovesUnrelatedDirectory | gitcheat.py:70-71 | when the clone fails, the script removes a directory named like the clone one level above the start, which the intended cleanup keeps |
| Transfer.Process.constructor | gitcheat.py:40 | a process starts in a given directory with nothing run and nothing logged |
| Transfer.Process.RunCommand | gitcheat.py:9-16 | the command is recorded, and the caller must exit iff the call site is fatal and the command failed |
| Transfer.Process.CloneBare | gitcheat.py:50 | records the clone and adds git's directory on success; exits iff the clone failed |
| Transfer.Process.EnsureGitFilterRepo | gitcheat.py:18-24 | probes the tool (not fatal) and installs it only when the usage banner is missing; exits iff that install failed |
| Transfer.Process.RunToolSteps | gitcheat.py:54-63 | leaves the state and flag that `RunUntilAbort` over the tool plan gives |
| Transfer.Process.RunPublishSteps | gitcheat.py:56-63 | leaves the state and flag that `RunUntilAbort` over the publish plan gives |
| Transfer.Process.ChangeDirectory | gitcheat.py:52 | enters `name` iff it is an existing directory here, and otherwise changes nothing |
| Transfer.Process.ChangeToParent | gitcheat.py:70 | the working directory becomes its parent |
| Transfer.Process.RemoveDirectory | gitcheat.py:71 | the named directory's tree is removed from the directories |
| Transfer.Process.TryBlockSteps | gitcheat.py:42-67 | leaves the state and the try-block outcome that `TryBlock` gives |
| Transfer.Process.TransferRepo | gitcheat.py:40-72 | leaves the state and termination that `Run` gives |

### Where the model follows the code

`Run` and `Process.TransferRepo` model the script as written:

- Once `bare_repo` is assigned, the completion message is logged even when
  the run exits with status 1 (`CompletionLoggedIffNamed`).
- `pip install git-filter-repo` (line 24) uses the default
  `exit_on_error=True`, so a failed install is fatal.
- A missing clone directory makes `os.chdir` (line 52) raise. The `except`
  clause turns that into `exit(1)`.
- Extraction does not reject a URL that names only a host:
  `https://github.com` gives `github.com` (`HostOnlyUrlNamesTheHost`).

## Findings

The `finally` block (lines 69-72) is evidently meant to return to the
starting directory, remove the clone it entered and log completion on every
path.
`RunAsIntended` is that cleanup (`FinallyAsIntended` after the same try
block). `IntendedCleanupRestoresAndLogs` and
`IntendedCleanupKeepsDirectoriesAfterFailedClone` prove what it promises. The rest of
the model keeps the script's own behaviour, so that `Process.TransferRepo` is
proved equal to the code as written.

| source | as written | input that shows it | evidently intended | confidence | as-written member | corrected member |
|---|---|---|---|---|---|---|
| gitcheat.py:71 | on a rejected URL or unextractable name, `bare_repo` is unbound, so `rmtree` raises `UnboundLocalError` and line 72 never logs | source URL `ftp://host/repo`, run from any directory but the root | the completion message is logged and the process exits with status 1 | high; not executed | Transfer.RejectedUrlCleanupDiffers | Transfer.IntendedCleanupRestoresAndLogs |
| gitcheat.py:70 | `chdir("..")` runs even when line 52 never entered the clone, so the run ends above its start and `rmtree` removes `../<name>.git` | a failed clone while the parent directory holds an unrelated `<name>.git` | the run returns to its start, and only a clone directory it entered is removed | high; not executed | Transfer.FailedCloneRemovesUnrelatedDirectory | Transfer.IntendedCleanupKeepsDirectoriesAfterFailedClone |

## Left out

- What the external commands do is not modelled: `git clone`, `git filter-repo`, `pip`, `git remote`, `git push` and the shell. Each becomes a recorded command whose success is a field of `Environment`; only its exit status matters to the script.
- The contents of `subprocess.run`'s output are not modelled. The check for `usage: git-filter-repo` in the help text (line 22) is the boolean `helpShowsUsage`.
- The directory `git clone --bare` creates is the input `cloneDirectory`, because git's naming rule is not in the script. `MisnamedCloneIsLeftBehind` states what happens when git's name and the script's differ.
- File contents and the repository's history are not modelled. Directories are paths, and `rmtree` is the removal of a path and everything below it; `ignore_errors=True` makes a missing path harmless.
- Logging messages and their text, the ASCII banner (lines 75-81) and the `input()` prompts (lines 82-85) are not modelled; the `Request` fields are the already-stripped inputs.
- Python's `$` also matches before a final newline. The inputs are stripped, so a URL never ends in a newline, and the model does not treat that case.
- The error text printed by the `except` clause is not modelled, and neither is any exception other than the ones named above (the failed `chdir` and the unbound `bare_repo`).
