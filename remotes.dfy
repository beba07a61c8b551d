/**
 * The remote bookkeeping of `GitRepository`: finding the remote that `git remote -v`
 * already lists for the declared URL (`_determine_remote_name`), and making up a name for
 * a new one (`_create_remote_name`).
 */
module Remotes {
  import opened Text
  import opened GitModel

  /*
   * `_determine_remote_name`.
   */

  /** A line of `remote -v` that is empty once stripped; the loop skips it. */
  predicate Blank(line: string) {
    Strip(line) == []
  }

  /** The whitespace-separated fields of a listing line: name, URL, "(fetch)" or "(push)". */
  function Fields(line: string): (fs: seq<string>)
    ensures !Blank(line) ==> |fs| >= 1
  {
    Tokens(Strip(line))
  }

  /**
   * A line of `remote -v` as git prints it, `name<TAB>url (fetch)`, has the name, the URL
   * and the kind as its fields, in that order.
   */
  lemma RemoteLineFields(name: string, url: string, kind: string)
    requires name != [] && NoSpace(name) && url != [] && NoSpace(url) && kind != [] && NoSpace(kind)
    ensures Fields(name + "\t" + url + " " + kind) == [name, url, kind]
  {
    var line := name + "\t" + url + " " + kind;
    assert line[0] == name[0] && line[|line| - 1] == kind[|kind| - 1];
    StripBare(line);
    RemoteLineTokens(name, url, kind);
  }

  /** A string with no whitespace at either end strips to itself. */
  lemma StripBare(s: string)
    requires s != [] && !IsSpace(s[0]) && !IsSpace(s[|s| - 1])
    ensures Strip(s) == s
  {
    StripPadded("", s, "");
    assert "" + s + "" == s;
  }

  lemma RemoteLineTokens(name: string, url: string, kind: string)
    requires name != [] && NoSpace(name) && url != [] && NoSpace(url) && kind != [] && NoSpace(kind)
    ensures Tokens(name + "\t" + url + " " + kind) == [name, url, kind]
  {
    var tail := " " + kind;
    var mid := "\t" + (url + tail);
    calc {
      name + "\t" + url + " " + kind;
      { AppendAssoc(name + "\t" + url, " ", kind); }
      name + "\t" + url + tail;
      { AppendAssoc(name + "\t", url, tail); }
      name + "\t" + (url + tail);
      { AppendAssoc(name, "\t", url + tail); }
      name + mid;
    }
    TokensFirst(name, mid);
    assert Tokens(tail) == [kind] by {
      TokensStep(" ", kind, "");
      assert " " + kind + "" == tail;
    }
    assert Tokens(mid) == [url] + Tokens(tail) by {
      TokensStep("\t", url, tail);
      AppendAssoc("\t", url, tail);
    }
  }

  /** `split()` of a string that starts with a field. */
  lemma TokensFirst(w: string, rest: string)
    requires w != [] && NoSpace(w)
    requires rest == [] || IsSpace(rest[0])
    ensures Tokens(w + rest) == [w] + Tokens(rest)
  {
    TokensStep("", w, rest);
    assert "" + w == w;
  }

  lemma AppendAssoc(a: string, b: string, c: string)
    ensures a + b + c == a + (b + c)
  {
  }

  /** The loop goes on past `line`: it is blank, or it names a remote with another URL. */
  predicate PassesOver(line: string, url: string) {
    Blank(line) || (|Fields(line)| >= 2 && Fields(line)[1] != url)
  }

  /**
   * What the loop over the lines of `remote -v` returns: the name on the first line whose
   * second field is the URL, "" when no line has it, or the IndexError of a non-blank line
   * with a single field met before that.
   */
  function RemoteNameIn(lines: seq<string>, url: string): (r: Result<string>)
    ensures r.Ok? && r.value != [] ==> NoSpace(r.value)
    ensures r.Fatal? ==> r.failure.RemoteLineTooShort?
  {
    if lines == [] then Ok("")
    else if Blank(lines[0]) then RemoteNameIn(lines[1..], url)
    else
      var fs := Fields(lines[0]);
      if |fs| < 2 then Fatal(RemoteLineTooShort(lines[0]))
      else if fs[1] == url then Ok(fs[0])
      else RemoteNameIn(lines[1..], url)
  }

  /** `_determine_remote_name` for the declared URL `url` over the text of `remote -v`. */
  method DetermineRemoteName(remoteListing: string, url: string) returns (r: Result<string>)
    ensures r == RemoteNameIn(SplitLines(remoteListing), url)
    ensures r == Ok("") <==> forall k :: 0 <= k < |SplitLines(remoteListing)| ==> PassesOver(SplitLines(remoteListing)[k], url)
  {
    var lines := SplitLines(remoteListing);
    var name := "";
    var i := 0;
    while i < |lines|
      invariant 0 <= i <= |lines|
      invariant RemoteNameIn(lines, url) == RemoteNameIn(lines[i..], url)
    {
      assert lines[i..][1..] == lines[i + 1..];
      var data := Strip(lines[i]);
      if data == [] {
        i := i + 1;
        continue;
      }
      var fields := Tokens(data);
      if |fields| < 2 {
        return Fatal(RemoteLineTooShort(lines[i]));
      }
      var remote := Strip(fields[0]);
      var remoteUrl := Strip(fields[1]);
      if url == remoteUrl {
        name := remote;
        break;
      }
      i := i + 1;
    }
    r := Ok(name);
    NotFoundIff(lines, url);
  }

  /*
   * What `_determine_remote_name` promises.
   */

  /** What the loop answers at the first line it does not pass over. */
  function StopVerdict(line: string): (r: Result<string>)
    requires !Blank(line)
    ensures r.Ok? ==> r.value != [] && NoSpace(r.value)
  {
    var fs := Fields(line);
    if |fs| >= 2 then Ok(fs[0]) else Fatal(RemoteLineTooShort(line))
  }

  /**
   * The answer is decided by the first line the loop does not pass over: the name on it, or
   * its IndexError; with no such line, "".
   */
  lemma {:induction false} DecidedByFirstStop(lines: seq<string>, url: string, k: nat)
    requires k <= |lines|
    requires forall j :: 0 <= j < k ==> PassesOver(lines[j], url)
    requires k < |lines| ==> !PassesOver(lines[k], url)
    ensures RemoteNameIn(lines, url) == if k == |lines| then Ok("") else StopVerdict(lines[k])
    decreases k
  {
    if k > 0 {
      PassedOver(lines, url);
      DecidedByFirstStop(lines[1..], url, k - 1);
      assert k < |lines| ==> lines[1..][k - 1] == lines[k];
    } else if k < |lines| {
      var fs := Fields(lines[0]);
      assert |fs| >= 2 ==> fs[1] == url;
    }
  }

  /** A line the loop passes over leaves the answer to the lines after it. */
  lemma PassedOver(lines: seq<string>, url: string)
    requires lines != [] && PassesOver(lines[0], url)
    ensures RemoteNameIn(lines, url) == RemoteNameIn(lines[1..], url)
  {
  }

  /** "" comes back exactly when the loop passes over every line. */
  lemma {:induction false} NotFoundIff(lines: seq<string>, url: string)
    ensures RemoteNameIn(lines, url) == Ok("") <==> forall k :: 0 <= k < |lines| ==> PassesOver(lines[k], url)
  {
    if lines != [] {
      NotFoundIff(lines[1..], url);
      AllPassSplit(lines, url);
      if PassesOver(lines[0], url) {
        PassedOver(lines, url);
      } else {
        StoppedAt(lines, url);
      }
    }
  }

  /**
   * After `remote add name url`, `remote -v` lists the new remote among the old lines, at
   * whatever place git sorts it to. When no old line had the URL, the scan now finds `name`.
   */
  lemma FoundAfterRemoteAdd(lines: seq<string>, url: string, name: string, kind: string, k: nat, more: seq<string>)
    requires RemoteNameIn(lines, url) == Ok("")
    requires k <= |lines|
    requires name != [] && NoSpace(name) && url != [] && NoSpace(url) && kind != [] && NoSpace(kind)
    ensures RemoteNameIn(lines[..k] + [name + "\t" + url + " " + kind] + more, url) == Ok(name)
  {
    var line := name + "\t" + url + " " + kind;
    var after := lines[..k] + [line] + more;
    NotFoundIff(lines, url);
    assert forall j :: 0 <= j < k ==> after[j] == lines[j];
    assert after[k] == line;
    RemoteLineFields(name, url, kind);
    assert !Blank(line) && !PassesOver(line, url);
    DecidedByFirstStop(after, url, k);
  }

  lemma AllPassSplit(lines: seq<string>, url: string)
    requires lines != []
    ensures (forall k :: 0 <= k < |lines| ==> PassesOver(lines[k], url))
      <==> PassesOver(lines[0], url) && forall k :: 0 <= k < |lines[1..]| ==> PassesOver(lines[1..][k], url)
  {
    assert forall k :: 0 <= k < |lines[1..]| ==> lines[1..][k] == lines[k + 1];
  }

  /** A line the loop does not pass over decides the answer. */
  lemma StoppedAt(lines: seq<string>, url: string)
    requires lines != [] && !PassesOver(lines[0], url)
    ensures RemoteNameIn(lines, url) == StopVerdict(lines[0])
  {
  }

  /**
   * A URL with whitespace in it, or the empty URL, is never found: the fields compared
   * with it are whitespace-free and non-empty (the declared URL is compared unstripped).
   */
  lemma {:induction false} UrlWithSpaceNeverFound(lines: seq<string>, url: string)
    requires url == [] || !NoSpace(url)
    ensures RemoteNameIn(lines, url) == Ok("") || RemoteNameIn(lines, url).Fatal?
  {
    if lines != [] {
      UrlWithSpaceNeverFound(lines[1..], url);
      if !Blank(lines[0]) && |Fields(lines[0])| >= 2 {
        assert Fields(lines[0])[1] != url by {
          var f := Fields(lines[0])[1];
          assert f != [] && NoSpace(f);
        }
      }
    }
  }

  /*
   * `_create_remote_name`.
   */

  /** `s` has no '/'. */
  predicate NoSeparator(s: string) {
    forall t :: 0 <= t < |s| ==> s[t] != '/'
  }

  /** The characters `_create_remote_name` removes from the base name. */
  const Unsafe: string := "!@#$%^&*()[]{}\\/,;~"

  /**
   * `_create_remote_name` on the URL after its preprocessing: the last two '/'-separated
   * pieces, the first cleaned of unsafe characters, joined by '_'. With no '/' there is no
   * second-to-last piece and `url[-2]` raises IndexError.
   */
  function RemoteNameFor(path: string): (r: Result<string>)
    ensures r.Fatal? <==> NoSeparator(path)
    ensures r.Fatal? ==> r.failure == UrlWithoutSeparator(path)
  {
    SeparatorIffTwoPieces(path, '/');
    var pieces := SplitOn(path, '/');
    if |pieces| < 2 then Fatal(UrlWithoutSeparator(path))
    else Ok(Without(pieces[|pieces| - 2], Unsafe) + "_" + pieces[|pieces| - 1])
  }

  /** `_create_remote_name`: split the path, clean the base name, join the two names. */
  method CreateRemoteName(path: string) returns (r: Result<string>)
    ensures r == RemoteNameFor(path)
    ensures r.Fatal? <==> NoSeparator(path)
  {
    var pieces := SplitOn(path, '/');
    if |pieces| < 2 {
      return Fatal(UrlWithoutSeparator(path));
    }
    var repoName := pieces[|pieces| - 1];
    var baseName := RemoveUnsafe(pieces[|pieces| - 2]);
    r := Ok(baseName + "_" + repoName);
  }

  /** The loop of `_create_remote_name`: `replace(unsafe, '')` for each unsafe character in turn. */
  method RemoveUnsafe(name: string) returns (cleaned: string)
    ensures cleaned == Without(name, Unsafe)
  {
    cleaned := name;
    WithoutKeeps(name, Unsafe[..0]);
    for i := 0 to |Unsafe|
      invariant cleaned == Without(name, Unsafe[..i])
    {
      RemoveCharExtendsWithout(name, Unsafe[..i], Unsafe[i]);
      assert Unsafe[..i + 1] == Unsafe[..i] + [Unsafe[i]];
      cleaned := RemoveChar(cleaned, Unsafe[i]);
    }
    assert Unsafe[..|Unsafe|] == Unsafe;
  }

  /*
   * What `_create_remote_name` promises.
   */

  /** `split(c)` gives more than one piece exactly when `c` occurs. */
  lemma SeparatorIffTwoPieces(s: string, c: char)
    ensures |SplitOn(s, c)| >= 2 <==> exists t :: 0 <= t < |s| && s[t] == c
  {
    var ps := SplitOn(s, c);
    SplitOnJoin(s, c);
    if |ps| >= 2 {
      assert s == ps[0] + [c] + JoinWith(ps[1..], c);
      assert s[|ps[0]|] == c;
    } else {
      assert s == ps[0];
      assert AllIn(ps[0], Except(c));
      forall t | 0 <= t < |s| ensures s[t] != c {
        assert InClass(ps[0][t], Except(c));
      }
    }
  }

  /** No character of `base` is one `_create_remote_name` considers unsafe. */
  predicate SafeBase(base: string) {
    forall t :: 0 <= t < |base| ==> base[t] !in Unsafe
  }

  /**
   * `repo` is all of `path` after its last '/', and `piece` the whole text between the '/'
   * before that (or the start) and the last '/'.
   */
  predicate LastTwoPiecesAt(path: string, piece: string, repo: string) {
    var slash := |path| - |repo| - 1;
    0 <= slash - |piece| && path[slash] == '/' && path[slash + 1..] == repo
    && path[slash - |piece|..slash] == piece
    && (slash - |piece| == 0 || path[slash - |piece| - 1] == '/')
    && NoSeparator(repo) && NoSeparator(piece)
  }

  /**
   * A created name is `base_repo`: `repo` is the whole text after the last '/' of the path,
   * and `base` is the whole piece between the '/' before that (or the start) and the last
   * '/', with every unsafe character removed.
   */
  lemma CreatedNameShape(path: string)
    requires RemoteNameFor(path).Ok?
    ensures var ps := SplitOn(path, '/');
      LastTwoPiecesAt(path, ps[|ps| - 2], ps[|ps| - 1])
      && RemoteNameFor(path).value == Without(ps[|ps| - 2], Unsafe) + "_" + ps[|ps| - 1]
      && SafeBase(Without(ps[|ps| - 2], Unsafe))
  {
    var ps := SplitOn(path, '/');
    assert |ps| >= 2 && RemoteNameFor(path).value == Without(ps[|ps| - 2], Unsafe) + "_" + ps[|ps| - 1];
    SplitPathShape(path, ps);
  }

  /** The last two pieces of `split('/')`, where they sit, and the base they clean to. */
  lemma SplitPathShape(path: string, ps: seq<string>)
    requires ps == SplitOn(path, '/') && |ps| >= 2
    ensures LastTwoPiecesAt(path, ps[|ps| - 2], ps[|ps| - 1])
    ensures SafeBase(Without(ps[|ps| - 2], Unsafe))
  {
    var n := |ps|;
    assert path == JoinWith(ps, '/') && NoSeparator(ps[n - 1]) && NoSeparator(ps[n - 2]) by {
      SplitOnJoin(path, '/');
      PieceHasNoSeparator(ps, '/', n - 1);
      PieceHasNoSeparator(ps, '/', n - 2);
    }
    PathOfPieces(path, ps);
    CleanedBaseIsSafe(ps[n - 2]);
  }

  /** Where the last two of the pieces that make up `path` sit in it. */
  lemma PathOfPieces(path: string, ps: seq<string>)
    requires path == JoinWith(ps, '/') && |ps| >= 2
    requires NoSeparator(ps[|ps| - 1]) && NoSeparator(ps[|ps| - 2])
    ensures LastTwoPiecesAt(path, ps[|ps| - 2], ps[|ps| - 1])
  {
    var n := |ps|;
    var front := JoinWith(ps[..n - 1], '/');
    assert path == front + "/" + ps[n - 1]
      && (front == ps[n - 2] || exists g :: front == g + "/" + ps[n - 2]) by {
      LastTwoPieces(ps, '/');
    }
    PiecePosition(path, front, ps[n - 2], ps[n - 1]);
  }

  lemma CleanedBaseIsSafe(piece: string)
    ensures SafeBase(Without(piece, Unsafe))
  {
    WithoutKeeps(piece, Unsafe);
  }

  /** The join of all pieces is the join of the front ones, '/', and the last. */
  lemma LastTwoPieces(ps: seq<string>, c: char)
    requires |ps| >= 2
    ensures var front := JoinWith(ps[..|ps| - 1], c);
      JoinWith(ps, c) == front + [c] + ps[|ps| - 1]
      && (front == ps[|ps| - 2]
          || exists g :: front == g + [c] + ps[|ps| - 2])
  {
    var n := |ps|;
    JoinWithLast(ps, c);
    var init := ps[..n - 1];
    assert init[|init| - 1] == ps[n - 2];
    if n > 2 {
      JoinWithLast(init, c);
      assert JoinWith(init, c) == JoinWith(init[..|init| - 1], c) + [c] + ps[n - 2];
    }
  }

  /** Where the last two pieces sit in the path. */
  lemma PiecePosition(path: string, front: string, piece: string, repo: string)
    requires path == front + "/" + repo
    requires front == piece || exists g :: front == g + "/" + piece
    requires NoSeparator(piece) && NoSeparator(repo)
    ensures LastTwoPiecesAt(path, piece, repo)
  {
    var slash := |path| - |repo| - 1;
    assert slash == |front|;
    assert path[..slash] == front;
    if front != piece {
      var g :| front == g + "/" + piece;
      assert path[slash - |piece| - 1] == front[|g|];
    }
  }

  /** The last piece follows the join of the others and one separator. */
  lemma {:induction false} JoinWithLast(ps: seq<string>, c: char)
    requires |ps| >= 2
    ensures JoinWith(ps, c) == JoinWith(ps[..|ps| - 1], c) + [c] + ps[|ps| - 1]
    decreases |ps|
  {
    if |ps| > 2 {
      JoinWithLast(ps[1..], c);
      assert ps[1..][..|ps[1..]| - 1] == ps[..|ps| - 1][1..];
    } else {
      assert ps[..1] == [ps[0]];
    }
  }

  lemma PieceHasNoSeparator(ps: seq<string>, c: char, k: nat)
    requires k < |ps| && AllIn(ps[k], Except(c))
    ensures forall t :: 0 <= t < |ps[k]| ==> ps[k][t] != c
  {
    forall t | 0 <= t < |ps[k]| ensures ps[k][t] != c { assert InClass(ps[k][t], Except(c)); }
  }

  /** The last piece of `split(c)` is the end of the string. */
  lemma {:induction false} LastPieceIsSuffix(s: string, c: char)
    ensures var ps := SplitOn(s, c);
      |ps[|ps| - 1]| <= |s| && s[|s| - |ps[|ps| - 1]|..] == ps[|ps| - 1]
    decreases |s|
  {
    var i := RunLength(s, 0, Except(c));
    RunLengthStops(s, 0, Except(c));
    var ps := SplitOn(s, c);
    if i < |s| {
      LastPieceIsSuffix(s[i + 1..], c);
      assert ps == [s[..i]] + SplitOn(s[i + 1..], c);
      var qs := SplitOn(s[i + 1..], c);
      assert ps[|ps| - 1] == qs[|qs| - 1];
      assert s[i + 1..][|s[i + 1..]| - |qs[|qs| - 1]|..] == s[|s| - |qs[|qs| - 1]|..];
    } else {
      RunLengthExactAll(s, c);
      assert ps == [s];
    }
  }

  lemma RunLengthExactAll(s: string, c: char)
    requires RunLength(s, 0, Except(c)) >= |s|
    ensures SplitOn(s, c) == [s]
  {
    assert s[..|s|] == s;
  }
}
