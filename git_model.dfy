/**
 * Values shared by the git repository logic: the declaration read from the externals
 * description, the answers git gives to the queries the logic makes (an oracle standing in
 * for the `_git_*` wrappers), and the fatal errors that end a run.
 */
module GitModel {
  import opened Text

  datatype Option<T> = None | Some(value: T)

  /** The URL the externals description uses for "this repository is local only". */
  const LocalPathIndicator: string := "."

  /** The diagnosis `_is_unique_tag` gives alongside its verdict. */
  datatype TagVerdict =
    | UniqueTag         // a tag and not a branch
    | HashAsTag         // neither tag nor branch, but a commit hash
    | BothBranchAndTag
    | BranchNotTag
    | Undetermined      // none of tag, branch or hash

  /** Every way a run is aborted: `fatal_error`, or an uncaught IndexError. */
  datatype Failure =
    | DetachedAtUnmatched(line: string)       // "detached at" line that the pattern rejects
    | DetachedFromUnmatched(line: string)     // "detached from" line that the pattern rejects
    | TrackingUnmatched(line: string)         // line with '[' that the pattern rejects
    | BranchNameMissing(line: string)         // `ref.split()[1]` out of range
    | RemoteLineTooShort(line: string)        // `data[1]` out of range in a `remote -v` line
    | UrlWithoutSeparator(url: string)        // `url[-2]` out of range after `split('/')`
    | NoReferenceDeclared(repoName: string)   // none of branch, hash, tag set
    | InvalidReference(repoName: string, ref: string, url: string)
    | TagNotUnique(repoName: string, tag: string, verdict: TagVerdict)

  datatype Result<T> = Ok(value: T) | Fatal(failure: Failure)

  datatype Outcome = Pass | Fail(failure: Failure)

  /**
   * One repository entry of the externals description. An empty string is an unset
   * field: every test the logic makes on these fields is a Python truth test.
   */
  datatype Declaration = Declaration(
    name: string,
    url: string,
    branch: string,
    tag: string,
    hash: string)

  /**
   * What git answers, in the working copy, to each query the logic makes.
   * - `tags`, `localBranches`: `show-ref --verify refs/tags/R`, `refs/heads/R` succeed;
   * - `remoteHeads[remote]`: branch names for which `ls-remote --exit-code --heads` succeeds;
   * - `revParse[R]`: what `rev-parse --verify R^{commit}` prints when it succeeds;
   * - `logOutput`: what `log -1 --format="%H"` prints;
   * - `branchListing`, `remoteListing`: the text of `branch -vv` and `remote -v`;
   * - `porcelain`, `statusText`: the text of `status --porcelain -z` and `status`.
   */
  datatype Repo = Repo(
    tags: set<string>,
    localBranches: set<string>,
    remoteHeads: map<string, set<string>>,
    revParse: map<string, string>,
    logOutput: string,
    branchListing: string,
    remoteListing: string,
    porcelain: string,
    statusText: string)

  /** `_git_revparse_commit`: the stripped commit hash when the query succeeds. */
  function RevParseCommit(repo: Repo, ref: string): (r: Option<string>)
    ensures r.Some? <==> ref in repo.revParse
    ensures r.Some? ==> r.value == [] || (!IsSpace(r.value[0]) && !IsSpace(r.value[|r.value| - 1]))
    ensures r.Some? ==> r.value == Strip(repo.revParse[ref])
  {
    if ref in repo.revParse then Some(Strip(repo.revParse[ref])) else None
  }

  /** git prints the hash and a newline: the query returns exactly the hash. */
  lemma RevParseOfLine(repo: Repo, ref: string, hash: string)
    requires ref in repo.revParse && repo.revParse[ref] == hash + "\n"
    requires hash != [] && NoSpace(hash)
    ensures RevParseCommit(repo, ref) == Some(hash)
  {
    StripPadded("", hash, "\n");
    assert "" + hash + "\n" == hash + "\n";
  }

  /**
   * The full hash of HEAD as `_check_sync_logic` sees it: the output of `_git_log_hash`
   * (stripped of whitespace) with the surrounding double quotes of the format removed.
   */
  function HeadHash(repo: Repo): (h: string)
    ensures h == [] || (h[0] != '"' && h[|h| - 1] != '"')
  {
    StripCharSpec(Strip(repo.logOutput), '"');
    StripChar(Strip(repo.logOutput), '"')
  }

  /**
   * `log -1 --format="%H"` prints the hash between the literal quotes of the format and a
   * newline; the sync check reads back exactly the hash.
   */
  lemma HeadHashOfLog(repo: Repo, hash: string)
    requires hash != [] && NoSpace(hash) && hash[0] != '"' && hash[|hash| - 1] != '"'
    requires repo.logOutput == "\"" + hash + "\"\n"
    ensures HeadHash(repo) == hash
  {
    var quoted := "\"" + hash + "\"";
    assert repo.logOutput == [] + quoted + "\n";
    assert "\n"[0] == '\n';
    StripPadded([], quoted, "\n");
    UnquoteQuoted(hash);
  }

  lemma UnquoteQuoted(hash: string)
    requires hash != [] && hash[0] != '"' && hash[|hash| - 1] != '"'
    ensures StripChar("\"" + hash + "\"", '"') == hash
  {
    var quoted := "\"" + hash + "\"";
    assert quoted[1..] == hash + "\"";
    assert TrimLeftChar(hash + "\"", '"') == hash + "\"";
    assert (hash + "\"")[..|hash|] == hash;
    assert TrimRightChar(hash, '"') == hash;
  }
}
