/**
 * `GitRepository` itself: the sync evaluator (`_check_sync`, `_check_sync_logic`), the
 * clean/dirty summary (`_status_summary`, `_status_v1z_is_dirty`) and the checkout
 * orchestration (`checkout`, `_checkout_ref`, `_checkout_local_ref`,
 * `_checkout_external_ref`).
 *
 * The status object is a class whose fields the methods assign. The git commands that
 * change the working tree (clone, remote add, fetch, checkout) are appended, as argument
 * vectors, to the repository's command log; the git queries read the `Repo` oracle.
 */
module Repository {
  import opened Text
  import opened GitModel
  import opened HeadState
  import opened RefClassifier
  import opened Remotes

  /** The states of `ExternalStatus` the logic assigns; `Default` is a fresh object's. */
  datatype StatusCode = Default | StatusOk | ModelModified | StatusError | Unknown | Dirty

  /** The status object `status` fills in. */
  class ExternalStatus {
    var syncState: StatusCode
    var cleanState: StatusCode
    var currentVersion: string
    var expectedVersion: string
    var statusOutput: string

    constructor ()
      ensures syncState == Default && cleanState == Default
      ensures currentVersion == "" && expectedVersion == "" && statusOutput == ""
    {
      syncState := Default;
      cleanState := Default;
      currentVersion := "";
      expectedVersion := "";
      statusOutput := "";
    }
  }

  /*
   * The git commands with side effects, as the `_git_*` wrappers build them.
   */

  function CloneCmd(url: string, dir: string): seq<string> { ["git", "clone", url, dir] }
  function RemoteAddCmd(name: string, url: string): seq<string> { ["git", "remote", "add", name, url] }
  function FetchCmd(remote: string): seq<string> { ["git", "fetch", "--tags", remote] }
  function CheckoutCmd(ref: string): seq<string> { ["git", "checkout", ref] }

  predicate IsRemoteAdd(c: seq<string>) { |c| == 5 && c[1] == "remote" }
  predicate IsCheckout(c: seq<string>) { |c| == 3 && c[1] == "checkout" }

  /*
   * Sync evaluation.
   */

  /**
   * The name `_check_sync_logic` expects HEAD to be at: a declared branch (qualified with
   * the remote that `remote -v` lists for the URL unless the URL is the local indicator,
   * compared unstripped), else the hash, else the tag.
   */
  function ExpectedRef(decl: Declaration, repo: Repo): (r: Result<string>)
    ensures r.Fatal? <==>
      (decl.branch == "" && decl.hash == "" && decl.tag == "")
      || (decl.branch != "" && decl.url != LocalPathIndicator
          && RemoteNameIn(SplitLines(repo.remoteListing), decl.url).Fatal?)
    ensures r.Fatal? && decl.branch == "" ==> r.failure == NoReferenceDeclared(decl.name)
    ensures decl.branch != "" && decl.url == LocalPathIndicator ==> r == Ok(decl.branch)
    ensures decl.branch != "" && decl.url != LocalPathIndicator
      && RemoteNameIn(SplitLines(repo.remoteListing), decl.url) == Ok("")
      ==> r == Ok("unknown_remote/" + decl.branch)
    ensures decl.branch != "" && decl.url != LocalPathIndicator
      && RemoteNameIn(SplitLines(repo.remoteListing), decl.url).Ok?
      && RemoteNameIn(SplitLines(repo.remoteListing), decl.url).value != ""
      ==> r == Ok(RemoteNameIn(SplitLines(repo.remoteListing), decl.url).value + "/" + decl.branch)
    ensures decl.branch == "" && decl.hash != "" ==> r == Ok(decl.hash)
    ensures decl.branch == "" && decl.hash == "" && decl.tag != "" ==> r == Ok(decl.tag)
  {
    if decl.branch != "" then
      if decl.url == LocalPathIndicator then Ok(decl.branch)
      else
        match RemoteNameIn(SplitLines(repo.remoteListing), decl.url)
        case Fatal(f) => Fatal(f)
        case Ok(remote) =>
          if remote == "" then Ok("unknown_remote/" + decl.branch) else Ok(remote + "/" + decl.branch)
    else if decl.hash != "" then Ok(decl.hash)
    else if decl.tag != "" then Ok(decl.tag)
    else Fatal(NoReferenceDeclared(decl.name))
  }

  /** The sync verdict for the expected name: HEAD's hash against the hash the name resolves to. */
  function SyncVerdict(repo: Repo, expected: string): (s: StatusCode)
    ensures s == StatusOk || s == ModelModified || s == Unknown
  {
    var head := HeadHash(repo);
    if head == "" then Unknown
    else
      match RevParseCommit(repo, expected)
      case None => ModelModified
      case Some(h) => if head == h then StatusOk else ModelModified
  }

  /** `_status_v1z_is_dirty`: any porcelain output at all means dirty. */
  function IsDirty(porcelain: string): (dirty: bool)
    ensures dirty <==> |porcelain| > 0
  {
    porcelain != ""
  }

  /*
   * Checkout, as the commands it issues.
   */

  /** What a checkout run ends with, and the commands it issued on the way. */
  datatype Run = Run(outcome: Outcome, issued: seq<seq<string>>)

  /** The reference checkout asks for: the tag, else the branch, else the hash. */
  function CheckoutChoice(decl: Declaration): (ref: string)
    ensures decl.tag != "" ==> ref == decl.tag
    ensures decl.tag == "" && decl.branch != "" ==> ref == decl.branch
    ensures decl.tag == "" && decl.branch == "" ==> ref == decl.hash
  {
    if decl.tag != "" then decl.tag else if decl.branch != "" then decl.branch else decl.hash
  }

  /** `_checkout_local_ref`: validate against the local repository only, then check out. */
  function LocalRun(decl: Declaration, repo: Repo): (run: Run)
    ensures run.outcome == CheckForValidRef(decl, repo, CheckoutChoice(decl), "")
    ensures run.outcome.Pass? <==> run.issued == [CheckoutCmd(CheckoutChoice(decl))]
    ensures run.outcome.Fail? <==> run.issued == []
  {
    var ref := CheckoutChoice(decl);
    var valid := CheckForValidRef(decl, repo, ref, "");
    if valid.Fail? then Run(valid, []) else Run(Pass, [CheckoutCmd(ref)])
  }

  /** The remote an external checkout uses: the one listed for the URL, or a new name. */
  function RemoteFor(decl: Declaration, repo: Repo, remotePath: string): (r: Result<string>)
    ensures r.Ok? ==> r.value != ""
    ensures var found := RemoteNameIn(SplitLines(repo.remoteListing), decl.url);
      (found.Fatal? ==> r == found)
      && (found.Ok? && found.value != "" ==> r == found)
      && (found == Ok("") ==> r == RemoteNameFor(remotePath))
  {
    match RemoteNameIn(SplitLines(repo.remoteListing), decl.url)
    case Fatal(f) => Fatal(f)
    case Ok(found) => if found != "" then Ok(found) else RemoteNameFor(remotePath)
  }

  /** The `remote add` an external checkout issues: only when no listed remote has the URL. */
  function AddedRemote(decl: Declaration, repo: Repo, name: string): (added: seq<seq<string>>)
    ensures |added| <= 1
    ensures added != [] <==> RemoteNameIn(SplitLines(repo.remoteListing), decl.url) == Ok("")
    ensures added != [] ==> added[0] == RemoteAddCmd(name, decl.url)
  {
    if RemoteNameIn(SplitLines(repo.remoteListing), decl.url) == Ok("") then [RemoteAddCmd(name, decl.url)] else []
  }

  /**
   * `_checkout_external_ref`: find or add the remote, fetch it, validate the reference
   * against it, then check out (a declared branch as `remote/ref`).
   */
  function ExternalRun(decl: Declaration, repo: Repo, remotePath: string): (run: Run)
    ensures RemoteFor(decl, repo, remotePath).Fatal? ==>
      run == Run(Fail(RemoteFor(decl, repo, remotePath).failure), [])
    ensures RemoteFor(decl, repo, remotePath).Ok? ==>
      run.outcome == CheckForValidRef(decl, repo, CheckoutChoice(decl), RemoteFor(decl, repo, remotePath).value)
  {
    var ref := CheckoutChoice(decl);
    var remote := RemoteFor(decl, repo, remotePath);
    if remote.Fatal? then Run(Fail(remote.failure), [])
    else
      var name := remote.value;
      var setup := AddedRemote(decl, repo, name) + [FetchCmd(name)];
      var valid := CheckForValidRef(decl, repo, ref, name);
      if valid.Fail? then Run(valid, setup)
      else Run(Pass, setup + [CheckoutCmd(if decl.branch != "" then name + "/" + ref else ref)])
  }

  /** `_checkout_ref`: the stripped URL decides between the two. */
  function CheckoutRun(decl: Declaration, repo: Repo, remotePath: string): (run: Run)
    ensures run.outcome.Pass? <==> run.issued != [] && IsCheckout(run.issued[|run.issued| - 1])
    ensures run.outcome.Fail? ==> forall k :: 0 <= k < |run.issued| ==> !IsCheckout(run.issued[k])
  {
    if Strip(decl.url) == LocalPathIndicator then LocalRun(decl, repo)
    else
      ExternalRunChecksOutLast(decl, repo, remotePath);
      ExternalRun(decl, repo, remotePath)
  }

  /** An external checkout issues a checkout exactly when it passes, and then as its last command. */
  lemma ExternalRunChecksOutLast(decl: Declaration, repo: Repo, remotePath: string)
    ensures var run := ExternalRun(decl, repo, remotePath);
      (run.outcome.Pass? <==> run.issued != [] && IsCheckout(run.issued[|run.issued| - 1]))
      && (run.outcome.Fail? ==> forall k :: 0 <= k < |run.issued| ==> !IsCheckout(run.issued[k]))
  {
    var remote := RemoteFor(decl, repo, remotePath);
    if remote.Ok? {
      var run := ExternalRun(decl, repo, remotePath);
      var added := AddedRemote(decl, repo, remote.value);
      var tail: seq<seq<string>> := if run.outcome.Pass? then [run.issued[|run.issued| - 1]] else [];
      assert run.issued == added + [FetchCmd(remote.value)] + tail;
      assert forall k :: 0 <= k < |added| ==> !IsCheckout(added[k]);
    }
  }

  /*
   * Properties of sync evaluation and of checkout.
   */

  /**
   * The sync verdict is OK exactly when HEAD has a hash and the expected name resolves to
   * that same commit; it is unknown exactly when HEAD has no hash.
   */
  lemma SyncOkIff(repo: Repo, expected: string)
    ensures SyncVerdict(repo, expected) == StatusOk <==>
      HeadHash(repo) != "" && RevParseCommit(repo, expected) == Some(HeadHash(repo))
    ensures SyncVerdict(repo, expected) == Unknown <==> HeadHash(repo) == ""
    ensures HeadHash(repo) != "" && expected !in repo.revParse ==> SyncVerdict(repo, expected) == ModelModified
  {
  }

  /** Two names that resolve to the same commit get the same verdict (a branch and its tip hash). */
  lemma AliasesAgree(repo: Repo, e1: string, e2: string)
    requires RevParseCommit(repo, e1) == RevParseCommit(repo, e2)
    ensures SyncVerdict(repo, e1) == SyncVerdict(repo, e2)
  {
  }

  /** A declaration names exactly one of a branch, a tag and a hash. */
  predicate SingleTarget(decl: Declaration)
  {
    (decl.branch != "" && decl.tag == "" && decl.hash == "")
    || (decl.branch == "" && decl.tag != "" && decl.hash == "")
    || (decl.branch == "" && decl.tag == "" && decl.hash != "")
  }

  /**
   * For a declaration with a single target whose URL is written the same way for both
   * operations, a successful checkout ends by checking out the very name the sync check
   * expects: the branch (qualified by its listed remote when the URL is not local), the
   * tag or the hash.
   */
  lemma {:induction false} CheckedOutIsExpected(decl: Declaration, repo: Repo, remotePath: string)
    requires SingleTarget(decl)
    requires decl.url == LocalPathIndicator || Strip(decl.url) != LocalPathIndicator
    requires decl.branch != "" && decl.url != LocalPathIndicator ==>
      RemoteNameIn(SplitLines(repo.remoteListing), decl.url).Ok?
      && RemoteNameIn(SplitLines(repo.remoteListing), decl.url).value != ""
    requires CheckoutRun(decl, repo, remotePath).outcome == Pass
    ensures ExpectedRef(decl, repo).Ok?
    ensures var issued := CheckoutRun(decl, repo, remotePath).issued;
      |issued| > 0 && issued[|issued| - 1] == CheckoutCmd(ExpectedRef(decl, repo).value)
  {
    if decl.url == LocalPathIndicator {
      assert NoSpace(decl.url);
      assert CheckoutRun(decl, repo, remotePath) == LocalRun(decl, repo);
      LocalCheckoutIsExpected(decl, repo);
    } else {
      assert CheckoutRun(decl, repo, remotePath) == ExternalRun(decl, repo, remotePath);
      ExternalCheckoutIsExpected(decl, repo, remotePath);
    }
  }

  lemma LocalCheckoutIsExpected(decl: Declaration, repo: Repo)
    requires SingleTarget(decl) && decl.url == LocalPathIndicator
    requires LocalRun(decl, repo).outcome == Pass
    ensures ExpectedRef(decl, repo).Ok?
    ensures LocalRun(decl, repo).issued == [CheckoutCmd(ExpectedRef(decl, repo).value)]
  {
  }

  lemma ExternalCheckoutIsExpected(decl: Declaration, repo: Repo, remotePath: string)
    requires SingleTarget(decl) && decl.url != LocalPathIndicator
    requires decl.branch != "" ==>
      RemoteNameIn(SplitLines(repo.remoteListing), decl.url).Ok?
      && RemoteNameIn(SplitLines(repo.remoteListing), decl.url).value != ""
    requires ExternalRun(decl, repo, remotePath).outcome == Pass
    ensures ExpectedRef(decl, repo).Ok?
    ensures var issued := ExternalRun(decl, repo, remotePath).issued;
      |issued| > 0 && issued[|issued| - 1] == CheckoutCmd(ExpectedRef(decl, repo).value)
  {
    var remote := RemoteFor(decl, repo, remotePath);
    assert remote.Ok?;
    var setup := AddedRemote(decl, repo, remote.value) + [FetchCmd(remote.value)];
    var target := if decl.branch != "" then remote.value + "/" + CheckoutChoice(decl) else CheckoutChoice(decl);
    assert ExternalRun(decl, repo, remotePath).issued == setup + [CheckoutCmd(target)];
    if decl.branch != "" {
      assert remote.value == RemoteNameIn(SplitLines(repo.remoteListing), decl.url).value;
      assert ExpectedRef(decl, repo) == Ok(target);
    } else {
      assert ExpectedRef(decl, repo) == Ok(target);
    }
  }

  /**
   * A branch checked out from a remote that the checkout had to add: once `remote -v` lists
   * the added remote, the sync check expects the very `remote/branch` that was checked out.
   */
  lemma AddedRemoteIsExpected(decl: Declaration, repo: Repo, after: Repo, remotePath: string,
                              kind: string, k: nat, more: seq<string>)
    requires decl.branch != "" && decl.tag == "" && decl.url != LocalPathIndicator
    requires decl.url != [] && NoSpace(decl.url) && kind != [] && NoSpace(kind)
    requires RemoteNameIn(SplitLines(repo.remoteListing), decl.url) == Ok("")
    requires ExternalRun(decl, repo, remotePath).outcome == Pass
    requires NoSpace(RemoteFor(decl, repo, remotePath).value)
    requires k <= |SplitLines(repo.remoteListing)|
    requires SplitLines(after.remoteListing)
      == SplitLines(repo.remoteListing)[..k] + [RemoteFor(decl, repo, remotePath).value + "\t" + decl.url + " " + kind] + more
    ensures ExpectedRef(decl, after) == Ok(RemoteFor(decl, repo, remotePath).value + "/" + decl.branch)
    ensures var issued := ExternalRun(decl, repo, remotePath).issued;
      |issued| > 0 && issued[|issued| - 1] == CheckoutCmd(ExpectedRef(decl, after).value)
  {
    var name := RemoteFor(decl, repo, remotePath).value;
    FoundAfterRemoteAdd(SplitLines(repo.remoteListing), decl.url, name, kind, k, more);
    var setup := AddedRemote(decl, repo, name) + [FetchCmd(name)];
    assert ExternalRun(decl, repo, remotePath).issued == setup + [CheckoutCmd(name + "/" + decl.branch)];
  }

  /**
   * Where the two operations disagree when a declaration names both a tag and a branch:
   * checkout takes the tag, the sync check the branch; and an external checkout with a
   * listed remote checks out `remote/tag` while the sync check expects `remote/branch`.
   */
  lemma TagAndBranchDisagree(decl: Declaration, repo: Repo, remotePath: string)
    requires decl.tag != "" && decl.branch != ""
    ensures CheckoutChoice(decl) == decl.tag
    ensures decl.url == LocalPathIndicator ==> ExpectedRef(decl, repo) == Ok(decl.branch)
    ensures var found := RemoteNameIn(SplitLines(repo.remoteListing), decl.url);
      decl.url != LocalPathIndicator && found.Ok? && found.value != ""
      && ExternalRun(decl, repo, remotePath).outcome == Pass
      ==> (ExpectedRef(decl, repo) == Ok(found.value + "/" + decl.branch)
           && ExternalRun(decl, repo, remotePath).issued
              == [FetchCmd(found.value), CheckoutCmd(found.value + "/" + decl.tag)])
  {
    var found := RemoteNameIn(SplitLines(repo.remoteListing), decl.url);
    if found.Ok? && found.value != "" {
      assert AddedRemote(decl, repo, found.value) == [];
    }
  }

  /**
   * Checkout strips the URL before comparing it with the local indicator and the sync check
   * does not: a URL of " ." is checked out locally but looked up among the remotes.
   */
  lemma PaddedLocalUrl(decl: Declaration, repo: Repo, remotePath: string)
    requires decl.url == " ." && decl.branch != ""
    ensures CheckoutRun(decl, repo, remotePath) == LocalRun(decl, repo)
    ensures RemoteNameIn(SplitLines(repo.remoteListing), decl.url) == Ok("") ==>
      ExpectedRef(decl, repo) == Ok("unknown_remote/" + decl.branch)
  {
    assert IsSpace(decl.url[0]) && !IsSpace(decl.url[1]);
    assert TrimLeft(decl.url) == ".";
    assert TrimRight(".") == ".";
  }

  /**
   * The commands of an external checkout that has a remote name, and no others: the
   * `remote add` of `AddedRemote` (issued exactly when no listed remote has the URL), then
   * one fetch of the remote, and a checkout, last and right after the fetch, exactly when
   * validation passes.
   */
  lemma ExternalRunCommands(decl: Declaration, repo: Repo, remotePath: string)
    requires RemoteFor(decl, repo, remotePath).Ok?
    ensures var run := ExternalRun(decl, repo, remotePath);
      var name := RemoteFor(decl, repo, remotePath).value;
      var added := AddedRemote(decl, repo, name);
      (IsRemoteAdd(run.issued[0]) <==> RemoteNameIn(SplitLines(repo.remoteListing), decl.url) == Ok(""))
      && |run.issued| == |added| + 1 + (if run.outcome.Pass? then 1 else 0)
      && run.issued[..|added|] == added
      && run.issued[|added|] == FetchCmd(name)
      && (forall k :: 0 <= k < |run.issued| && IsCheckout(run.issued[k]) ==>
            k == |run.issued| - 1 && 0 < k && run.issued[k - 1] == FetchCmd(name))
      && (run.outcome.Pass? <==> IsCheckout(run.issued[|run.issued| - 1]))
  {
    var run := ExternalRun(decl, repo, remotePath);
    var name := RemoteFor(decl, repo, remotePath).value;
    var added := AddedRemote(decl, repo, name);
    var target := if decl.branch != "" then name + "/" + CheckoutChoice(decl) else CheckoutChoice(decl);
    var tail: seq<seq<string>> := if run.outcome.Pass? then [CheckoutCmd(target)] else [];
    assert run.issued == added + [FetchCmd(name)] + tail;
    RunOrder(run, added, name, tail);
  }

  /** `CommandOrder` read off a run whose commands are already split into their three parts. */
  lemma RunOrder(run: Run, added: seq<seq<string>>, name: string, tail: seq<seq<string>>)
    requires |added| <= 1 && forall k :: 0 <= k < |added| ==> IsRemoteAdd(added[k])
    requires |tail| <= 1 && forall k :: 0 <= k < |tail| ==> IsCheckout(tail[k])
    requires run.issued == added + [FetchCmd(name)] + tail
    requires run.outcome.Pass? <==> |tail| == 1
    ensures (IsRemoteAdd(run.issued[0]) <==> |added| == 1)
      && |run.issued| == |added| + 1 + (if run.outcome.Pass? then 1 else 0)
      && run.issued[..|added|] == added
      && run.issued[|added|] == FetchCmd(name)
      && (forall k :: 0 <= k < |run.issued| && IsCheckout(run.issued[k]) ==>
            k == |run.issued| - 1 && 0 < k && run.issued[k - 1] == FetchCmd(name))
      && (run.outcome.Pass? <==> IsCheckout(run.issued[|run.issued| - 1]))
  {
    CommandOrder(added, name, tail);
  }

  /**
   * The arguments of an external checkout's commands: the `remote add` binds the remote's
   * name to the declared URL, and the checkout names `remote/ref` exactly when a branch is
   * declared, else the chosen reference itself.
   */
  lemma ExternalRunArguments(decl: Declaration, repo: Repo, remotePath: string)
    requires RemoteFor(decl, repo, remotePath).Ok?
    ensures var run := ExternalRun(decl, repo, remotePath);
      var name := RemoteFor(decl, repo, remotePath).value;
      run.issued != []
      && (IsRemoteAdd(run.issued[0]) ==> run.issued[0] == RemoteAddCmd(name, decl.url))
      && (run.outcome.Pass? ==>
            run.issued[|run.issued| - 1]
            == CheckoutCmd(if decl.branch != "" then name + "/" + CheckoutChoice(decl) else CheckoutChoice(decl)))
  {
    var name := RemoteFor(decl, repo, remotePath).value;
    var added := AddedRemote(decl, repo, name);
    var run := ExternalRun(decl, repo, remotePath);
    assert run.issued[..|added| + 1] == added + [FetchCmd(name)];
    assert added == [] ==> run.issued[0] == FetchCmd(name);
  }

  /** The order of `remote add`, fetch and checkout, whatever their arguments. */
  lemma CommandOrder(added: seq<seq<string>>, name: string, tail: seq<seq<string>>)
    requires |added| <= 1 && forall k :: 0 <= k < |added| ==> IsRemoteAdd(added[k])
    requires |tail| <= 1 && forall k :: 0 <= k < |tail| ==> IsCheckout(tail[k])
    ensures var issued := added + [FetchCmd(name)] + tail;
      (IsRemoteAdd(issued[0]) <==> |added| == 1)
      && |issued| == |added| + 1 + |tail|
      && issued[..|added|] == added
      && issued[|added|] == FetchCmd(name)
      && (forall k :: 0 <= k < |issued| && IsCheckout(issued[k]) ==>
            k == |issued| - 1 && 0 < k && issued[k - 1] == FetchCmd(name))
      && (|tail| == 1 <==> IsCheckout(issued[|issued| - 1]))
  {
    var issued := added + [FetchCmd(name)] + tail;
    assert issued[..|added|] == added;
    forall k | 0 <= k < |issued| && IsCheckout(issued[k])
      ensures k == |issued| - 1 && 0 < k && issued[k - 1] == FetchCmd(name)
    {
      if k > |added| {
        assert k == |added| + 1 && tail == [issued[k]];
      }
    }
  }

  /**
   * One repository entry of the externals description, and the log of the commands that
   * its checkouts have issued.
   */
  class GitRepository {
    const decl: Declaration
    var commands: seq<seq<string>>

    constructor (decl: Declaration)
      ensures this.decl == decl && commands == []
    {
      this.decl := decl;
      commands := [];
    }

    /*
     * Status.
     */

    /** `status`: the sync state, then, when the directory exists, the clean state. */
    method Status(stat: ExternalStatus, dirExists: bool, gitDirExists: bool, repo: Repo)
      returns (o: Outcome)
      modifies stat
      ensures !dirExists ==> o == Pass && stat.syncState == StatusError
      ensures !dirExists ==> stat.cleanState == old(stat.cleanState) && stat.statusOutput == old(stat.statusOutput)
      ensures !dirExists ==>
                stat.currentVersion == old(stat.currentVersion) && stat.expectedVersion == old(stat.expectedVersion)
      ensures dirExists && o.Pass? ==>
                stat.cleanState == (if IsDirty(repo.porcelain) then Dirty else StatusOk)
                && stat.statusOutput == repo.statusText
      ensures dirExists && !gitDirExists ==> o == Pass && stat.syncState == Unknown
      ensures dirExists && !gitDirExists ==>
                stat.currentVersion == old(stat.currentVersion) && stat.expectedVersion == old(stat.expectedVersion)
      ensures dirExists && gitDirExists ==> SyncLogicDone(stat, repo, o)
      ensures o.Fail? ==> unchanged(stat)
    {
      o := CheckSync(stat, dirExists, gitDirExists, repo);
      if o.Fail? {
        return;
      }
      if dirExists {
        StatusSummary(stat, repo);
      }
    }

    /** `_check_sync`: an absent directory is an error, one without `.git` unknown. */
    method CheckSync(stat: ExternalStatus, dirExists: bool, gitDirExists: bool, repo: Repo)
      returns (o: Outcome)
      modifies stat
      ensures stat.cleanState == old(stat.cleanState) && stat.statusOutput == old(stat.statusOutput)
      ensures !dirExists ==> o == Pass && stat.syncState == StatusError
      ensures !dirExists ==>
                stat.currentVersion == old(stat.currentVersion) && stat.expectedVersion == old(stat.expectedVersion)
      ensures dirExists && !gitDirExists ==> o == Pass && stat.syncState == Unknown
      ensures dirExists && !gitDirExists ==>
                stat.currentVersion == old(stat.currentVersion) && stat.expectedVersion == old(stat.expectedVersion)
      ensures dirExists && gitDirExists ==> SyncLogicDone(stat, repo, o)
      ensures o.Fail? ==> unchanged(stat)
    {
      if !dirExists {
        stat.syncState := StatusError;
        o := Pass;
      } else if !gitDirExists {
        stat.syncState := Unknown;
        o := Pass;
      } else {
        o := CheckSyncLogic(stat, repo);
      }
    }

    /**
     * What `_check_sync_logic` leaves in the sync fields of `stat`: nothing changed when
     * the expected or the current name is a fatal error, otherwise both names and the verdict.
     */
    twostate predicate SyncLogicDone(stat: ExternalStatus, repo: Repo, o: Outcome)
      reads stat
    {
      var expected := ExpectedRef(decl, repo);
      var current := ParseHead(repo.branchListing);
      var kept := stat.syncState == old(stat.syncState)
        && stat.currentVersion == old(stat.currentVersion)
        && stat.expectedVersion == old(stat.expectedVersion);
      (expected.Fatal? ==> o == Fail(expected.failure) && kept)
      && (expected.Ok? && current.Fatal? ==> o == Fail(current.failure) && kept)
      && (expected.Ok? && current.Ok? ==>
            o == Pass
            && stat.currentVersion == current.value
            && stat.expectedVersion == expected.value
            && stat.syncState == SyncVerdict(repo, expected.value))
    }

    /**
     * `_check_sync_logic`: build the expected name, record it and the current one, and
     * compare HEAD's hash with the hash the expected name resolves to.
     */
    method CheckSyncLogic(stat: ExternalStatus, repo: Repo) returns (o: Outcome)
      modifies stat
      ensures SyncLogicDone(stat, repo, o)
      ensures stat.cleanState == old(stat.cleanState) && stat.statusOutput == old(stat.statusOutput)
      ensures o.Fail? ==> unchanged(stat)
    {
      var head := HeadHash(repo);
      var expected := ExpectedName(repo);
      if expected.Fatal? {
        return Fail(expected.failure);
      }
      var current := CurrentRef(repo.branchListing);
      if current.Fatal? {
        return Fail(current.failure);
      }
      stat.currentVersion := current.value;
      stat.expectedVersion := expected.value;
      if head == "" {
        stat.syncState := Unknown;
      } else {
        var resolved := RevParseCommit(repo, expected.value);
        if resolved.None? {
          stat.syncState := ModelModified;
        } else if head == resolved.value {
          stat.syncState := StatusOk;
        } else {
          stat.syncState := ModelModified;
        }
      }
      o := Pass;
    }

    /** The expected name of `_check_sync_logic`: the branch, the hash or the tag, in that order. */
    method ExpectedName(repo: Repo) returns (r: Result<string>)
      ensures r == ExpectedRef(decl, repo)
    {
      var expected: string;
      if decl.branch != "" {
        if decl.url == LocalPathIndicator {
          expected := decl.branch;
        } else {
          var found := DetermineRemoteName(repo.remoteListing, decl.url);
          if found.Fatal? {
            return Fatal(found.failure);
          }
          if found.value == "" {
            expected := "unknown_remote/" + decl.branch;
          } else {
            expected := found.value + "/" + decl.branch;
          }
        }
      } else if decl.hash != "" {
        expected := decl.hash;
      } else if decl.tag != "" {
        expected := decl.tag;
      } else {
        return Fatal(NoReferenceDeclared(decl.name));
      }
      r := Ok(expected);
    }

    /** `_status_summary`: the clean state from the porcelain output, and the verbose status. */
    method StatusSummary(stat: ExternalStatus, repo: Repo)
      modifies stat
      ensures stat.cleanState == (if IsDirty(repo.porcelain) then Dirty else StatusOk)
      ensures stat.statusOutput == repo.statusText
      ensures stat.syncState == old(stat.syncState)
      ensures stat.currentVersion == old(stat.currentVersion) && stat.expectedVersion == old(stat.expectedVersion)
    {
      if IsDirty(repo.porcelain) {
        stat.cleanState := Dirty;
      } else {
        stat.cleanState := StatusOk;
      }
      stat.statusOutput := repo.statusText;
    }

    /*
     * Checkout.
     */

    /** `checkout`: clone into a missing directory first, then check out the reference. */
    method Checkout(repoDirName: string, dirExists: bool, repo: Repo, remotePath: string)
      returns (o: Outcome)
      modifies this
      ensures o == CheckoutRun(decl, repo, remotePath).outcome
      ensures commands == old(commands) + (if dirExists then [] else [CloneCmd(decl.url, repoDirName)])
        + CheckoutRun(decl, repo, remotePath).issued
    {
      if !dirExists {
        commands := commands + [CloneCmd(decl.url, repoDirName)];
      }
      o := CheckoutRef(repo, remotePath);
    }

    /** `_checkout_ref`. */
    method CheckoutRef(repo: Repo, remotePath: string) returns (o: Outcome)
      modifies this
      ensures o == CheckoutRun(decl, repo, remotePath).outcome
      ensures commands == old(commands) + CheckoutRun(decl, repo, remotePath).issued
    {
      if Strip(decl.url) == LocalPathIndicator {
        o := CheckoutLocalRef(repo);
      } else {
        o := CheckoutExternalRef(repo, remotePath);
      }
    }

    /** `_checkout_local_ref`. */
    method CheckoutLocalRef(repo: Repo) returns (o: Outcome)
      modifies this
      ensures o == LocalRun(decl, repo).outcome
      ensures commands == old(commands) + LocalRun(decl, repo).issued
    {
      var ref: string;
      if decl.tag != "" {
        ref := decl.tag;
      } else if decl.branch != "" {
        ref := decl.branch;
      } else {
        ref := decl.hash;
      }
      o := CheckForValidRef(decl, repo, ref, "");
      if o.Fail? {
        return;
      }
      commands := commands + [CheckoutCmd(ref)];
    }

    /** `_checkout_external_ref`. */
    method CheckoutExternalRef(repo: Repo, remotePath: string) returns (o: Outcome)
      modifies this
      ensures o == ExternalRun(decl, repo, remotePath).outcome
      ensures commands == old(commands) + ExternalRun(decl, repo, remotePath).issued
    {
      var ref: string;
      if decl.tag != "" {
        ref := decl.tag;
      } else if decl.branch != "" {
        ref := decl.branch;
      } else {
        ref := decl.hash;
      }
      var named := AddRemoteIfMissing(repo, remotePath);
      if named.Fatal? {
        return Fail(named.failure);
      }
      var remote := named.value;
      ghost var setup := AddedRemote(decl, repo, remote) + [FetchCmd(remote)];
      commands := commands + [FetchCmd(remote)];
      assert commands == old(commands) + setup;
      o := CheckForValidRef(decl, repo, ref, remote);
      if o.Fail? {
        assert ExternalRun(decl, repo, remotePath) == Run(o, setup);
        return;
      }
      if decl.branch != "" {
        ref := remote + "/" + ref;
      }
      assert ExternalRun(decl, repo, remotePath) == Run(Pass, setup + [CheckoutCmd(ref)]);
      commands := commands + [CheckoutCmd(ref)];
    }

    /** The first half of `_checkout_external_ref`: the remote listed for the URL, or a new one added. */
    method AddRemoteIfMissing(repo: Repo, remotePath: string) returns (r: Result<string>)
      modifies this
      ensures r == RemoteFor(decl, repo, remotePath)
      ensures r.Fatal? ==> commands == old(commands)
      ensures r.Ok? ==> commands == old(commands) + AddedRemote(decl, repo, r.value)
    {
      var found := DetermineRemoteName(repo.remoteListing, decl.url);
      if found.Fatal? || found.value != "" {
        return found;
      }
      r := CreateRemoteName(remotePath);
      if r.Ok? {
        commands := commands + [RemoteAddCmd(r.value, decl.url)];
      }
    }
  }
}
