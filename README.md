# Git repository references and sync state (manic `GitRepository`)

This project models the part of manic's `GitRepository` that decides which git
reference an external should be at and whether it is there. manic is the checkout tool
for externals in climate-model source trees. The model covers these operations:

- **Current reference.** `_current_ref` reads the `git branch -vv` listing. It takes the
  first line that starts with `*` and classifies it with the three regular expressions of
  the class: "detached at", "detached from" and a tracking branch in `[...]`. Otherwise it
  takes the line's second field. Each regular expression is modelled as an anchored
  matcher that backtracks over the optional `HEAD ` qualifier. A leftmost search runs over
  that matcher. Both are proved equivalent to a declarative statement of the pattern.
- **Sync state.** `_check_sync` and `_check_sync_logic` build the expected name: a branch
  qualified by its remote, else the hash, else the tag. They record both names, then
  compare HEAD's hash with the hash the expected name resolves to.
  `_status_summary` sets the clean or dirty state.
- **Reference validation.** `_check_for_valid_ref`, `_is_unique_tag` and the `_ref_is_*`
  probes.
- **Remote names.** `_determine_remote_name` looks up a remote in `git remote -v`.
  `_create_remote_name` builds a safe `base_repo` name.
- **Checkout.** `checkout`, `_checkout_ref`, `_checkout_local_ref` and
  `_checkout_external_ref`. This covers whether to clone, whether to add a remote, what to
  fetch and which name to check out.

Git is not run. Every answer the logic reads from git comes from one value of type
`GitModel.Repo`:

- the tags and local branches that `show-ref` finds;
- the heads of each remote;
- what `rev-parse` prints;
- the text of `log -1`, `branch -vv`, `remote -v`, `status --porcelain -z` and `status`.

The commands that change the working copy are appended to the `commands` log of a
`GitRepository` object: `clone`, `remote add`, `fetch` and `checkout`. The `fatal_error`
calls and the `IndexError`s of the source become `Failure` values. An operation stops at
the first one. A status object is left as the failure found it.

Modules:

- `Text` models the Python string operations used: `isspace`, `strip`, `split`,
  `splitlines`, `split('/')` and `replace`.
- `GitModel` holds the data model.
- `HeadState` covers `_current_ref` and its regular expressions.
- `RefClassifier` covers the probes and validation.
- `Remotes` covers remote names.
- `Repository` holds the `ExternalStatus` and `GitRepository` classes.

## Model

| member | source | states |
|---|---|---|
| Text.Strip | manic/repository_git.py:318 | `str.strip()`: the result is a contiguous slice of the input with no whitespace at either end, and every character cut off before or after it is whitespace. It is empty exactly when the input is all whitespace. It is the input itself when the input has no whitespace. |
| Text.StripCharSpec | manic/repository_git.py:264 | `strip('"')`: the result neither begins nor ends with `"`. It is a slice of the input, and every character cut from either end was `"`. |
| Text.Tokens | manic/repository_git.py:213 | `split()`: every field is non-empty and free of whitespace. A non-empty string without whitespace is a single field. `TokensOfSpace` and `TokensStep` fix the fields completely. |
| Text.TokensOfSpace | manic/repository_git.py:213 | `split()` gives no field exactly when the string is all whitespace. |
| Text.TokensStep | manic/repository_git.py:321-323 | After leading whitespace, a whitespace-free run that ends at whitespace or at the end of the string is the next field of `split()`, and the rest of the string gives the fields after it. |
| Text.SplitJoinLines | manic/repository_git.py:171 | `splitlines()` of lines joined by newlines, with no newline after the last line and the last line non-empty, gives back exactly those lines. |
| Text.SplitJoinLinesTerminated | manic/repository_git.py:171 | `splitlines()` of a listing in which every line, the last included, ends in a newline gives back exactly its lines. This is how git prints `branch -vv` and `remote -v`. |
| Text.SplitOnJoin | manic/repository_git.py:365 | The pieces of `split('/')`, joined again with `/`, give back the original path. |
| Text.StripPadded | manic/repository_git.py:318 | `strip()` of a text padded with whitespace on both sides is the text, when the text has no whitespace at either end. |
| Text.WithoutKeeps | manic/repository_git.py:371-373 | Removing a set of characters keeps only characters of the input and none from the set. It changes nothing when none of them occurs. |
| Text.RemoveCharExtendsWithout | manic/repository_git.py:372-373 | One more `replace(c, '')` is the same as removing the set extended by `c`. This is the loop's inductive step. |
| GitModel.RevParseCommit | manic/repository_git.py:706-716 | The rev-parse query succeeds exactly for the names git resolves. What it returns is git's output with `strip()` applied, so it has no whitespace at either end. |
| GitModel.RevParseOfLine | manic/repository_git.py:706-716 | When git prints a hash followed by a newline, the query returns exactly that hash. |
| GitModel.HeadHash | manic/repository_git.py:263-264 | The HEAD hash read by the sync check never begins or ends with `"`. |
| GitModel.HeadHashOfLog | manic/repository_git.py:658-660 | When `log -1 --format="%H"` prints a hash between the format's literal quotes and a newline, the sync check reads back exactly that hash. |
| HeadState.MatchIff | manic/repository_git.py:50-62 | The anchored matcher of each pattern returns `x` at position `i` exactly when the pattern's form holds there with group 1 = `x`. This includes trying the optional `(?:[\w]+[\s]+)?` qualifier both ways. |
| HeadState.SearchFromIff | manic/repository_git.py:50-62 | Searching from `i` finds nothing exactly when no position from `i` on matches. Otherwise it returns the group of the first matching position. |
| HeadState.SearchIff | manic/repository_git.py:183-204 | `re.search` over the whole line: no result exactly when no position matches. Otherwise it returns the group of the leftmost match. |
| HeadState.DetachedMatchComplete | manic/repository_git.py:50-57 | Every "detached at/from" form at a position is found by the matcher there. |
| HeadState.DetachedMatchSound | manic/repository_git.py:50-57 | Whatever the "detached at/from" matcher returns satisfies the pattern's form. |
| HeadState.TrackingMatchComplete | manic/repository_git.py:62 | Every `[name]` or `[name: ahead/behind ...]` form is found by the tracking matcher. |
| HeadState.TrackingMatchSound | manic/repository_git.py:62 | Whatever the tracking matcher returns satisfies the tracking form. |
| HeadState.Match | manic/repository_git.py:50-62 | A match at a position captures a non-empty name. `MatchIff` states exactly when it matches and what it captures. |
| HeadState.Search | manic/repository_git.py:183-204 | A search result is a non-empty name. `SearchFromIff` and `SearchIff` state its leftmost-match meaning. |
| HeadState.FirstMarked | manic/repository_git.py:171-176 | No line is found exactly when no line starts with `*`. Otherwise the result is the first such line. |
| HeadState.FirstMarkedLineWins | manic/repository_git.py:172-176 | The line at index `k` is chosen when it is marked and no earlier line is. |
| HeadState.ClassifyMarkedLine | manic/repository_git.py:182-213 | A classified marked line names a non-empty reference. `ClassifyMarkedLineCases` states the four cases. |
| HeadState.ParseHead | manic/repository_git.py:169-215 | The current reference is `""` when no line is marked. Otherwise it is what the first marked line classifies as, or that line's error. The final `strip()` has nothing to remove, so the name contains no whitespace. |
| HeadState.ClassifyMarkedLineCases | manic/repository_git.py:182-213 | The substring tests are tried in order: "detached at", "detached from", `[`. In the branch taken, the line yields a name exactly when the pattern matches somewhere, and the name is the leftmost match's group. Otherwise the branch's own fatal error results. With no keyword the result is the second whitespace field, or an error when there is none. |
| HeadState.CurrentRef | manic/repository_git.py:111-216 | The loop method returns the parse of the listing. A returned name contains no whitespace. The name is `""` when no line is marked. |
| HeadState.ListingParsesFirstMarkedLine | manic/repository_git.py:169-216 | For a listing whose every line ends in a newline, as git prints it, the current reference is the classification of the first marked line. The same holds without the final newline when the last line is not empty. Later lines never matter. |
| HeadState.ClassifiedRefHasNoSpace | manic/repository_git.py:182-215 | A name classified from a marked line never contains whitespace. |
| HeadState.TrackedNameHasNoAnnotation | manic/repository_git.py:62 | On a tracking branch the name has only `[\w\-./]` characters. The `: ahead N, behind M` annotation is never part of it. |
| HeadState.FirstBracketIsReadAsTracking | manic/repository_git.py:203-206 | A line without either "detached" keyword is read as a tracking line at its first `[`, wherever it is: `* b 1a2b3c4 Fix [x] now` names `x`, not the branch `b`. |
| HeadState.DetachedAtLineNamesRef | manic/repository_git.py:50-51 | Any line `* (Q detached at X)...` yields `X`, for every word `Q` and reference `X`. |
| HeadState.DetachedAtRemoteBranchExample | manic/repository_git.py:128-131 | The documented "detached at remote branch" line yields `origin/feature2`. |
| HeadState.DetachedFromLineNamesHash | manic/repository_git.py:192-202 | Any line `* (Q detached from N) H...`, with `H` a whole word and no "detached at" after it, yields the hash `H`, not the name `N`. |
| HeadState.DetachedFromRemoteBranchExample | manic/repository_git.py:145-147 | The documented "detached from a branch" line yields the hash `1c455f6`. |
| HeadState.TrackingNoteLineNamesRef | manic/repository_git.py:203-210 | A line without either keyword whose first `[` opens `[X: note]` yields `X`, and the ahead/behind note is dropped. |
| HeadState.TrackingAheadBehindExample | manic/repository_git.py:159-161 | The documented tracking line `[origin/master: ahead 3, behind 2]` yields `origin/master`. |
| RefClassifier.RefIsTag | manic/repository_git.py:501-512 | A reference is a tag exactly when `show-ref --verify refs/tags/<ref>` succeeds. |
| RefClassifier.RefIsBranch | manic/repository_git.py:514-528 | A reference is a branch exactly when it is a local branch, or when a remote is named and the remote has it as a head. With no remote named only local branches count. |
| RefClassifier.RefIsLocalBranch | manic/repository_git.py:530-546 | A reference is a local branch exactly when `show-ref --verify refs/heads/<ref>` succeeds. |
| RefClassifier.RefIsRemoteBranch | manic/repository_git.py:548-564 | A reference is a remote branch only for a remote git knows, and then exactly when `ls-remote --heads` lists it. |
| RefClassifier.RefIsCommit | manic/repository_git.py:566-579 | A reference is a commit exactly when `rev-parse --verify <ref>^{commit}` succeeds. |
| RefClassifier.RefIsHash | manic/repository_git.py:581-600 | A reference is a hash exactly when it resolves and its stripped hash starts with the reference. So every hash is a commit, and no hash reference is longer than its full hash. |
| RefClassifier.IsUniqueTag | manic/repository_git.py:457-499 | The decision table of `_is_unique_tag`, as iff-statements over the tag, branch and hash probes. It covers the unique tag, the bare hash accepted as a tag, both a branch and a tag, a branch but not a tag, and undetermined. |
| RefClassifier.CheckForValidRef | manic/repository_git.py:430-455 | Validation passes exactly when the reference is a tag, a branch or a hash, and not both a tag and a branch. A reference that is none of the three fails with the invalid-reference error naming the repo, the reference and the URL. A tag that is also a branch fails with the not-unique error naming the declared tag. |
| RefClassifier.ValidIffBranchOrUniqueTag | manic/repository_git.py:436-453 | Validation passes exactly for a branch that is not a tag, or for what `_is_unique_tag` accepts. |
| RefClassifier.BareHashPasses | manic/repository_git.py:489-492 | A hash that is neither a tag nor a branch passes, and is called a tag with "is ok". |
| RefClassifier.ValidationReportsOnlyCollisions | manic/repository_git.py:448-453 | The only uniqueness failure validation can report is "both a branch and a tag". |
| RefClassifier.NoRemoteMeansLocalOnly | manic/repository_git.py:514-528 | Without a remote name, only local branches count as branches. |
| RefClassifier.SymbolicNameIsNotHash | manic/repository_git.py:581-600 | `HEAD` resolves to a commit but is not a hash. Unless it is a tag or a branch, validation rejects it. |
| Remotes.Fields | manic/repository_git.py:321 | A non-blank line has at least one field. |
| Remotes.RemoteLineFields | manic/repository_git.py:321-323 | A `remote -v` line `name<TAB>url (kind)` splits into exactly the fields name, URL and kind, so `data[0]` is the remote's name and `data[1]` its URL. |
| Remotes.RemoteNameIn | manic/repository_git.py:307-327 | A remote name found for the URL has no whitespace. The only error the scan raises is the `IndexError` of a one-field line. |
| Remotes.StopVerdict | manic/repository_git.py:321-326 | At a line that ends the scan, the result is an error for a one-field line. Otherwise it is a non-empty remote name without whitespace. |
| Remotes.DetermineRemoteName | manic/repository_git.py:307-327 | The loop method returns the listing's verdict. It returns `""` exactly when every line is blank or lists another URL. |
| Remotes.DecidedByFirstStop | manic/repository_git.py:316-326 | The result is decided by the first line that is neither blank nor lists another URL. It is `""` when there is no such line. |
| Remotes.NotFoundIff | manic/repository_git.py:316-327 | "No remote" exactly when every line passes over the URL. |
| Remotes.UrlWithSpaceNeverFound | manic/repository_git.py:321-324 | An empty URL, or one containing whitespace, never names a remote, because fields have no whitespace. |
| Remotes.CreateRemoteName | manic/repository_git.py:364-375 | The loop method builds `base_repo`. It fails exactly when the path has no `/`, which is the `IndexError` of `url[-2]`. |
| Remotes.RemoveUnsafe | manic/repository_git.py:371-373 | The `replace` loop removes exactly the unsafe characters. |
| Remotes.RemoteNameFor | manic/repository_git.py:364-375 | Naming fails exactly when the path has no `/`, with the `IndexError` of `url[-2]`. |
| Remotes.SeparatorIffTwoPieces | manic/repository_git.py:365-367 | `split('/')` has at least two pieces exactly when the path contains `/`. |
| Remotes.CreatedNameShape | manic/repository_git.py:365-374 | A created name is `base + "_" + repo`. `repo` is all of the path after its last `/`. `base` is the whole piece between the `/` before it, or the start, and the last `/`, with its unsafe characters removed. |
| Remotes.JoinWithLast | manic/repository_git.py:365-366 | The last piece of a split follows the join of the other pieces and one separator. |
| Remotes.FoundAfterRemoteAdd | manic/repository_git.py:314-327 | Take a listing in which no line has the URL, and insert the line `name<TAB>url (kind)` that `remote add` creates, at any place. The scan then finds `name`. |
| Remotes.LastPieceIsSuffix | manic/repository_git.py:365-366 | The last piece of `split('/')` is a suffix of the path. |
| Repository.ExpectedRef | manic/repository_git.py:266-284 | The expected name is the branch itself for the local URL `"."`. For any other URL it is `remote/branch` with the remote listed for the URL, or `unknown_remote/branch` when none is listed. Without a branch it is the hash, else the tag. It is fatal exactly when nothing is declared (the error names the repo), or when a non-local branch meets a malformed remote listing. |
| Repository.SyncVerdict | manic/repository_git.py:290-302 | The sync verdict is one of OK, modified and unknown. |
| Repository.SyncOkIff | manic/repository_git.py:249-302 | The verdict is OK exactly when HEAD has a hash and the expected name resolves to that same commit. It is unknown exactly when HEAD has no hash. A name git cannot resolve gives modified. |
| Repository.AliasesAgree | manic/repository_git.py:294-302 | Two names resolving to the same commit get the same verdict, for example a branch and its tip hash. |
| Repository.IsDirty | manic/repository_git.py:620-644 | Any porcelain output at all means dirty. |
| Repository.CheckoutChoice | manic/repository_git.py:396-401 | Checkout asks for the tag, else the branch, else the hash. |
| Repository.CheckedOutIsExpected | manic/repository_git.py:266-284 | Take a declaration with one target and a URL written the same for both operations. After a successful checkout, the last command checks out exactly the name the sync check then expects. |
| Repository.LocalCheckoutIsExpected | manic/repository_git.py:389-402 | The local case of the above. |
| Repository.ExternalCheckoutIsExpected | manic/repository_git.py:405-428 | The external case of the above. A branch is qualified by its listed remote. |
| Repository.AddedRemoteIsExpected | manic/repository_git.py:266-284 | Take a passing external checkout of a branch (with no tag) whose remote had to be added. Once `remote -v` lists the added remote, the sync check expects `remote/branch`, and that is the checkout's last command. The remote's name must have no whitespace; git does not accept such a name for a remote. |
| Repository.TagAndBranchDisagree | manic/repository_git.py:389-428 | For any declaration with both a tag and a branch, checkout takes the tag. With the local URL the sync check expects the branch. With a listed remote, a successful external checkout fetches and checks out `remote/tag`, while the sync check expects `remote/branch`. |
| Repository.PaddedLocalUrl | manic/repository_git.py:383 | A URL of `" ."` is checked out locally, because checkout strips the URL. The sync check (line 267) does not strip it and looks for a remote. |
| Repository.LocalRun | manic/repository_git.py:389-402 | A local checkout validates the chosen reference against the local repository only. It issues the one checkout of that reference exactly when validation passes, and nothing else: no fetch and no remote. |
| Repository.ExternalRun | manic/repository_git.py:405-428 | When no remote name can be had, an external checkout issues nothing and fails as the naming did. Otherwise its outcome is validation of the chosen reference against that remote. |
| Repository.RemoteFor | manic/repository_git.py:415-418 | The remote used is the one listed for the URL. When none is listed it is a created name, or the naming error. A listing error is passed on. The name used is never empty. |
| Repository.AddedRemote | manic/repository_git.py:415-418 | A `remote add` is issued exactly when no listed remote has the URL. There is at most one, and it binds the remote's name to the declared URL. |
| Repository.ExternalRunCommands | manic/repository_git.py:405-428 | The whole command list of an external checkout. It starts with the commands of `AddedRemote`: a `remote add` exactly when no listed remote has the URL. Then comes exactly one fetch of the remote. A checkout follows exactly when validation passes, and nothing else is issued. The length is that count. |
| Repository.ExternalRunArguments | manic/repository_git.py:413-428 | In an external checkout, a first `remote add` binds the remote's name to the declared URL. The checkout of a successful run names `remote/ref` exactly when a branch is declared, else the chosen reference itself. |
| Repository.ExternalRunChecksOutLast | manic/repository_git.py:405-428 | An external checkout issues a checkout exactly when it passes, and then as its last command. A failed run issues no checkout. |
| Repository.ExternalStatus.constructor | manic/repository_git.py:286-303 | The status object holds the five fields the logic assigns: the sync and clean states, the current and expected versions, and the verbose status text. A new one starts at `Default` and empty strings. |
| Repository.CheckoutRun | manic/repository_git.py:377-387 | Whichever way the stripped URL selects, a checkout is issued exactly when the run passes, as its last command. A failed run issues no checkout. |
| Repository.GitRepository.constructor | manic/repository_git.py:64-68 | A new repository object holds its declaration and has issued no command. |
| Repository.GitRepository.Status | manic/repository_git.py:87-98 | Sync state first. Then, when the directory exists, the clean state and the verbose status. A fatal error leaves the status object untouched. |
| Repository.GitRepository.CheckSync | manic/repository_git.py:218-239 | A missing directory gives an error state. A directory without `.git` gives unknown. Otherwise the sync logic runs. |
| Repository.GitRepository.CheckSyncLogic | manic/repository_git.py:241-305 | A fatal expected or current name leaves the status object as it was. Otherwise the object records both names and the verdict, and no other field changes. |
| Repository.GitRepository.ExpectedName | manic/repository_git.py:266-284 | The method computes the expected name, the function `ExpectedRef` with the five cases above. |
| Repository.GitRepository.StatusSummary | manic/repository_git.py:602-618 | Dirty exactly when the porcelain output is non-empty. The verbose status is recorded and the sync fields are kept. |
| Repository.GitRepository.Checkout | manic/repository_git.py:75-85 | A clone of the declared URL is issued first exactly when the directory is missing. Then come the reference checkout's commands and outcome. |
| Repository.GitRepository.CheckoutRef | manic/repository_git.py:377-387 | The stripped URL picks the local or the external checkout. |
| Repository.GitRepository.CheckoutLocalRef | manic/repository_git.py:389-402 | The method issues the local checkout's commands and returns its outcome. |
| Repository.GitRepository.CheckoutExternalRef | manic/repository_git.py:405-428 | The method issues the external checkout's commands and returns its outcome. |
| Repository.GitRepository.AddRemoteIfMissing | manic/repository_git.py:415-418 | The method uses the listed remote, or creates a name and issues `remote add`. A naming failure issues nothing. |

## Left out

- The subprocess wrappers (`_git_*`, lines 651-788) are not modelled as commands. The
  queries are answers read from `Repo`. The commands that change the working copy are
  argument vectors appended to the log. Exit codes and output capture are not modelled.
- The oracle is one snapshot. A `remote add` or `fetch` does not change it. An external
  checkout's validation reads it as the repository's state after the fetch.
- `os.path.exists` of the repository and `.git` directories are boolean parameters.
  Each of lines 106-107, 259-260, 381-382 and 606-607 saves the working directory, enters
  a directory and later restores it. The model leaves this save/enter/restore out: it
  treats the clone as run in the parent directory, and every other query and command as
  run inside the repository directory.
- `is_remote_url`, `split_remote_url` and `expand_local_url` (in `manic/utils.py`, which
  is not part of this model) become the `remotePath` parameter of checkout.
- `fatal_error` raises, and the message texts are not modelled. A failure carries its kind
  and the repo name, reference or URL it names.
- `ExternalStatus` (in another file, which is not part of this model) defines its state
  constants and initial values. `Repository.ExternalStatus.constructor` uses `Default` and
  empty strings as stand-ins. The `Repository` base class's parsing of the externals
  description is left out too: a `Declaration` value is given.
- `LOCAL_PATH_INDICATOR` and `EMPTY_STR` come from `manic/global_constants.py`, which is
  not part of this model. They are taken to be `"."` and `""`. An unset branch, tag or hash
  is `""`, whether the `Repository` base class (not part of this model) stores `None` or
  `""`. Nearly every use is a truth test. The exception is the checkout methods (lines
  400 and 413), which take `self._hash` itself as the reference when neither tag nor
  branch is set. With nothing declared at all, the model then validates `""` where the
  source would pass whatever the base class stored to git.
- Regular expressions are modelled one pattern at a time, not by a general engine. `\w` is
  ASCII letters, digits and `_`, with no Unicode word characters. `\s` and
  `split`/`strip` use Python's `str.isspace` set.
- Verbosity, logging, `printlog` and `copy.deepcopy` have no effect on results and are left
  out.
- Repository.CheckedOutIsExpected is stated only for declarations with exactly one of
  branch, tag and hash, whose URL is `"."` or does not strip to `"."`. For a non-local
  branch, the lemma also requires the remote to be already listed. That last condition
  comes from the one-snapshot oracle, not from the program. After a checkout that had to
  add the remote, a later `remote -v` lists it, and `AddedRemoteIsExpected` proves that
  the sync check then expects the `remote/branch` that was checked out. The first two
  conditions are real disagreements, as `TagAndBranchDisagree` and `PaddedLocalUrl` show.
- Repository.SyncVerdict states only its range in its own contract. Its meaning is stated
  by `SyncOkIff` and `AliasesAgree`.
