/**
 * The reference probes of `GitRepository` (`_ref_is_tag`, `_ref_is_branch`,
 * `_ref_is_local_branch`, `_ref_is_remote_branch`, `_ref_is_commit`, `_ref_is_hash`) and the
 * validation built on them (`_is_unique_tag`, `_check_for_valid_ref`).
 *
 * Each probe asks git one question; here it reads the answer from the `Repo` oracle, so a
 * probe is a pure function of its arguments and asking twice gives the same answer.
 */
module RefClassifier {
  import opened Text
  import opened GitModel

  /** `_ref_is_tag`: `show-ref --verify refs/tags/<ref>` succeeds. */
  function RefIsTag(repo: Repo, ref: string): (b: bool)
    ensures b <==> ref in repo.tags
  {
    ref in repo.tags
  }

  /** `_ref_is_local_branch`: `show-ref --verify refs/heads/<ref>` succeeds. */
  function RefIsLocalBranch(repo: Repo, ref: string): (b: bool)
    ensures b <==> ref in repo.localBranches
  {
    ref in repo.localBranches
  }

  /** `_ref_is_remote_branch`: `ls-remote --heads <remote> <ref>` finds the branch. */
  function RefIsRemoteBranch(repo: Repo, ref: string, remote: string): (b: bool)
    ensures b ==> remote in repo.remoteHeads
    ensures remote in repo.remoteHeads ==> (b <==> ref in repo.remoteHeads[remote])
  {
    remote in repo.remoteHeads && ref in repo.remoteHeads[remote]
  }

  /**
   * `_ref_is_branch`: a local branch, or a head of the named remote when one is named; with
   * no remote named, only the local branches are asked.
   */
  function RefIsBranch(repo: Repo, ref: string, remote: string): (b: bool)
    ensures b <==> RefIsLocalBranch(repo, ref) || (remote != "" && RefIsRemoteBranch(repo, ref, remote))
    ensures remote == "" ==> (b <==> ref in repo.localBranches)
  {
    RefIsLocalBranch(repo, ref) || (remote != "" && RefIsRemoteBranch(repo, ref, remote))
  }

  /** `_ref_is_commit`: `rev-parse --verify <ref>^{commit}` succeeds. */
  function RefIsCommit(repo: Repo, ref: string): (b: bool)
    ensures b <==> ref in repo.revParse
  {
    RevParseCommit(repo, ref).Some?
  }

  /**
   * `_ref_is_hash`: the ref names a commit whose full hash starts with the ref itself. So
   * every hash is a commit, and the ref is no longer than the hash it abbreviates.
   */
  function RefIsHash(repo: Repo, ref: string): (b: bool)
    ensures b ==> RefIsCommit(repo, ref)
    ensures b ==> |ref| <= |RevParseCommit(repo, ref).value|
    ensures b <==> ref in repo.revParse && StartsWith(Strip(repo.revParse[ref]), ref)
  {
    var h := RevParseCommit(repo, ref);
    h.Some? && StartsWith(h.value, ref)
  }

  /** The pair `_is_unique_tag` returns: whether the tag may be checked out, and why. */
  datatype TagCheck = TagCheck(unique: bool, verdict: TagVerdict)

  /** `_is_unique_tag`: the decision table over the three probes. */
  function IsUniqueTag(repo: Repo, ref: string, remote: string): (r: TagCheck)
    ensures r.unique <==>
      (RefIsTag(repo, ref) && !RefIsBranch(repo, ref, remote))
      || (!RefIsTag(repo, ref) && !RefIsBranch(repo, ref, remote) && RefIsHash(repo, ref))
    ensures r.unique <==> r.verdict == UniqueTag || r.verdict == HashAsTag
    ensures r.verdict == BothBranchAndTag <==> RefIsTag(repo, ref) && RefIsBranch(repo, ref, remote)
    ensures r.verdict == BranchNotTag <==> !RefIsTag(repo, ref) && RefIsBranch(repo, ref, remote)
    ensures r.verdict == Undetermined <==>
      !RefIsTag(repo, ref) && !RefIsBranch(repo, ref, remote) && !RefIsHash(repo, ref)
  {
    var isTag := RefIsTag(repo, ref);
    var isBranch := RefIsBranch(repo, ref, remote);
    var isHash := RefIsHash(repo, ref);
    if isTag && !isBranch then TagCheck(true, UniqueTag)
    else if isTag && isBranch then TagCheck(false, BothBranchAndTag)
    else if !isTag && isBranch then TagCheck(false, BranchNotTag)
    else if isHash then TagCheck(true, HashAsTag)
    else TagCheck(false, Undetermined)
  }

  /**
   * `_check_for_valid_ref` for the repository declared by `decl`: a reference that is none
   * of tag, branch and hash is fatal, and so is a tag that `_is_unique_tag` rejects (the
   * message then names the declared tag, not the reference).
   */
  function CheckForValidRef(decl: Declaration, repo: Repo, ref: string, remote: string): (r: Outcome)
    ensures r.Pass? <==>
      (RefIsTag(repo, ref) || RefIsBranch(repo, ref, remote) || RefIsHash(repo, ref))
      && !(RefIsTag(repo, ref) && RefIsBranch(repo, ref, remote))
    ensures !(RefIsTag(repo, ref) || RefIsBranch(repo, ref, remote) || RefIsHash(repo, ref))
      ==> r == Fail(InvalidReference(decl.name, ref, decl.url))
    ensures RefIsTag(repo, ref) && RefIsBranch(repo, ref, remote)
      ==> r == Fail(TagNotUnique(decl.name, decl.tag, BothBranchAndTag))
  {
    var isTag := RefIsTag(repo, ref);
    var isBranch := RefIsBranch(repo, ref, remote);
    var isHash := RefIsHash(repo, ref);
    if !(isTag || isBranch || isHash) then Fail(InvalidReference(decl.name, ref, decl.url))
    else if isTag && !IsUniqueTag(repo, ref, remote).unique then
      Fail(TagNotUnique(decl.name, decl.tag, IsUniqueTag(repo, ref, remote).verdict))
    else Pass
  }

  /*
   * What validation promises.
   */

  /** Validation passes exactly for a branch that is not a tag, or for what `_is_unique_tag` accepts. */
  lemma ValidIffBranchOrUniqueTag(decl: Declaration, repo: Repo, ref: string, remote: string)
    ensures CheckForValidRef(decl, repo, ref, remote).Pass? <==>
      (RefIsBranch(repo, ref, remote) && !RefIsTag(repo, ref)) || IsUniqueTag(repo, ref, remote).unique
  {
  }

  /** A hash that is neither tag nor branch passes validation. */
  lemma BareHashPasses(decl: Declaration, repo: Repo, ref: string, remote: string)
    requires RefIsHash(repo, ref) && !RefIsTag(repo, ref) && !RefIsBranch(repo, ref, remote)
    ensures CheckForValidRef(decl, repo, ref, remote) == Pass
    ensures IsUniqueTag(repo, ref, remote) == TagCheck(true, HashAsTag)
  {
  }

  /**
   * `_is_unique_tag` is only consulted for tags, so a non-unique verdict that validation
   * reports is always the tag/branch collision: its other verdicts never reach the user.
   */
  lemma ValidationReportsOnlyCollisions(decl: Declaration, repo: Repo, ref: string, remote: string)
    ensures CheckForValidRef(decl, repo, ref, remote).Fail?
      && CheckForValidRef(decl, repo, ref, remote).failure.TagNotUnique?
      ==> CheckForValidRef(decl, repo, ref, remote).failure == TagNotUnique(decl.name, decl.tag, BothBranchAndTag)
  {
  }

  /** With no remote named, the remote heads are never consulted. */
  lemma NoRemoteMeansLocalOnly(repo: Repo, repo': Repo, ref: string)
    requires repo'.localBranches == repo.localBranches
    ensures RefIsBranch(repo, ref, "") <==> RefIsLocalBranch(repo, ref)
    ensures RefIsBranch(repo, ref, "") == RefIsBranch(repo', ref, "")
  {
  }

  /** A lower-case hexadecimal digit, the alphabet of the hashes git prints. */
  predicate IsHexDigit(c: char) {
    '0' <= c <= '9' || 'a' <= c <= 'f'
  }

  /**
   * A symbolic name that git resolves (`HEAD` to the hash it prints) is a commit but not a
   * hash: when it is neither tag nor branch, validation rejects it as invalid.
   */
  lemma SymbolicNameIsNotHash(decl: Declaration, repo: Repo)
    requires "HEAD" in repo.revParse && Strip(repo.revParse["HEAD"]) != []
    requires IsHexDigit(Strip(repo.revParse["HEAD"])[0])
    requires "HEAD" !in repo.tags && "HEAD" !in repo.localBranches
    ensures RefIsCommit(repo, "HEAD") && !RefIsHash(repo, "HEAD")
    ensures CheckForValidRef(decl, repo, "HEAD", "") == Fail(InvalidReference(decl.name, "HEAD", decl.url))
  {
    assert "HEAD"[0] == 'H';
  }
}
