/**
 * The head-state parser of `GitRepository._current_ref`: find the line of `git branch -vv`
 * that is marked with `*` and recover the name of the current reference from it.
 *
 * The three regular expressions of the class (RE_DETACHED_AT, RE_DETACHED_FROM,
 * RE_TRACKING) are written as scanners that do what a backtracking `re.search` does.
 * Each scanner is proved equal to a declarative description of the strings its pattern
 * matches (`Form`), so the parser's answers can be read off the pattern text.
 */
module HeadState {
  import opened Text
  import opened GitModel

  /** The three patterns of the class, by name. */
  datatype Pattern = DetachedAt | DetachedFrom | Tracking

  /*
   * Scanners. Every `+` of the three patterns is followed by a character outside its class
   * (or ends the pattern, greedily), so backtracking never shortens a run: a run is always
   * the longest one (`RunLength`). Only the optional groups give the engine a choice, and
   * the scanners try them first, as the engine does.
   */

  /** Where `(?:[\w]+[\s]+)` ends when it can be taken at `j`. */
  function QualifierEnd(s: string, j: nat): (r: Option<nat>)
    ensures r.Some? ==> j < r.value <= |s|
  {
    var w := RunLength(s, j, Word);
    var sp := RunLength(s, j + w, Space);
    if w > 0 && sp > 0 then Some(j + w + sp) else None
  }

  /** `detached at ([\w\-./]+)\)` at `b`: the captured name. */
  function AtTail(s: string, b: nat): Option<string>
  {
    if OccursAt(s, "detached at ", b) then
      var k := b + 12;
      var n := RunLength(s, k, RefChar);
      if n > 0 && k + n < |s| && s[k + n] == ')' then Some(s[k..k + n]) else None
    else None
  }

  /** `detached from [\w\-./]+\)[\s]+([\w]+)` at `b`: the captured hash. */
  function FromTail(s: string, b: nat): Option<string>
  {
    if OccursAt(s, "detached from ", b) then
      var k := b + 14;
      var n := RunLength(s, k, RefChar);
      if n > 0 && k + n < |s| && s[k + n] == ')' then WordAfterGap(s, k + n + 1) else None
    else None
  }

  /** `[\s]+([\w]+)` at `g`: the word after a gap of whitespace. */
  function WordAfterGap(s: string, g: nat): Option<string>
  {
    var w := RunLength(s, g, Space);
    var h := RunLength(s, g + w, Word);
    if w > 0 && h > 0 then Some(s[g + w..g + w + h]) else None
  }

  function Tail(pat: Pattern, s: string, b: nat): (r: Option<string>)
    ensures r.Some? ==> r.value != []
  {
    if pat == DetachedAt then AtTail(s, b) else FromTail(s, b)
  }

  /** `(?::[\s]+[\w\s,]+)?\]` at `c`, the optional group tried first. */
  predicate TrackingEnds(s: string, c: nat)
  {
    c < |s| &&
    ((s[c] == ':' && c + 1 < |s| && IsSpace(s[c + 1]) &&
      var r := RunLength(s, c + 1, NoteChar);
      r >= 2 && c + 1 + r < |s| && s[c + 1 + r] == ']')
     || s[c] == ']')
  }

  /** The pattern anchored at index `i` of `s`: what the engine captures there, if anything. */
  function Match(pat: Pattern, s: string, i: nat): (r: Option<string>)
    ensures r.Some? ==> r.value != []
  {
    if pat == Tracking then
      if i < |s| && s[i] == '[' then
        var n := RunLength(s, i + 1, RefChar);
        if n > 0 && TrackingEnds(s, i + 1 + n) then Some(s[i + 1..i + 1 + n])
        else None
      else None
    else if OccursAt(s, "* (", i) then
      var q := QualifierEnd(s, i + 3);
      var viaQualifier := if q.Some? then Tail(pat, s, q.value) else None;
      if viaQualifier.Some? then viaQualifier else Tail(pat, s, i + 3)
    else None
  }

  /** `re.search`: the match at the leftmost index from `i` on where there is one. */
  function Search(pat: Pattern, s: string, i: nat): (r: Option<string>)
    ensures r.Some? ==> r.value != []
    decreases |s| + 1 - i
  {
    if i > |s| then None
    else
      var m := Match(pat, s, i);
      if m.Some? then m else Search(pat, s, i + 1)
  }

  /*
   * Declarative descriptions of the three patterns: which anchored substrings they match
   * and what group 1 holds then.
   */

  /** `(?:[\w]+[\s]+)?` can span `s[j..b]`. */
  ghost predicate QualifierSpan(s: string, j: nat, b: nat)
  {
    b == j || (b <= |s| && exists k :: j < k < b && AllInRange(s, j, k, Word) && AllInRange(s, k, b, Space))
  }

  /** `detached at X)` at `b`, X a non-empty run of `[\w\-./]`. */
  ghost predicate AtTailForm(s: string, b: nat, x: string)
  {
    OccursAt(s, "detached at ", b) && x != [] && AllIn(x, RefChar)
    && OccursAt(s, x, b + 12) && OccursAt(s, ")", b + 12 + |x|)
  }

  /**
   * `detached from N)G X` at `b`, the name N spanning `s[b + 14..d]`, the gap G of
   * whitespace spanning `s[d + 1..e]`, and X the word that starts at `e` (all of it,
   * since the last `+` is greedy).
   */
  ghost predicate FromTailAt(s: string, b: nat, d: nat, e: nat, x: string)
  {
    OccursAt(s, "detached from ", b) && b + 14 < d < |s| && AllInRange(s, b + 14, d, RefChar)
    && s[d] == ')' && GapThenWord(s, d + 1, e, x)
  }

  /** `[\s]+([\w]+)` at `g`: a gap of whitespace up to `e`, then the whole word `x`. */
  ghost predicate GapThenWord(s: string, g: nat, e: nat, x: string)
  {
    g < e && AllInRange(s, g, e, Space)
    && x != [] && AllIn(x, Word) && OccursAt(s, x, e)
    && (e + |x| == |s| || !IsWordChar(s[e + |x|]))
  }

  ghost predicate TailForm(pat: Pattern, s: string, b: nat, x: string)
  {
    if pat == DetachedAt then AtTailForm(s, b, x)
    else exists d: nat, e: nat :: FromTailAt(s, b, d, e, x)
  }

  ghost predicate DetachedFormFrom(pat: Pattern, s: string, j: nat, x: string)
  {
    exists b: nat :: QualifierSpan(s, j, b) && TailForm(pat, s, b, x)
  }

  /** `:[\s]+[\w\s,]+` spans `s[c..e]`. */
  ghost predicate NoteSpan(s: string, c: nat, e: nat)
  {
    c < |s| && s[c] == ':'
    && exists m :: c + 1 < m < e && AllInRange(s, c + 1, m, Space) && AllInRange(s, m, e, NoteChar)
  }

  /** What may follow the tracked name: `]`, or an annotation and then `]`. */
  ghost predicate TrackingSuffix(s: string, c: nat)
  {
    OccursAt(s, "]", c) || exists e: nat :: NoteSpan(s, c, e) && e < |s| && s[e] == ']'
  }

  /** The pattern `pat` matches `s` at index `i` with group 1 equal to `x`. */
  ghost predicate Form(pat: Pattern, s: string, i: nat, x: string)
  {
    if pat == Tracking then
      i < |s| && s[i] == '[' && x != [] && AllIn(x, RefChar) && OccursAt(s, x, i + 1)
      && TrackingSuffix(s, i + 1 + |x|)
    else
      OccursAt(s, "* (", i) && DetachedFormFrom(pat, s, i + 3, x)
  }

  /** `pat` matches nowhere in `s`. */
  ghost predicate NoForm(pat: Pattern, s: string)
  {
    forall i: nat, y :: i <= |s| ==> !Form(pat, s, i, y)
  }

  /** The leftmost match of `pat` in `s` captures `x`. */
  ghost predicate LeftmostForm(pat: Pattern, s: string, x: string)
  {
    exists i: nat :: i <= |s| && Form(pat, s, i, x) && forall j: nat, y :: j < i ==> !Form(pat, s, j, y)
  }

  /*
   * The scanners agree with the forms.
   */

  lemma SpaceIsNotWord(c: char)
    ensures IsSpace(c) ==> !IsWordChar(c) && !InClass(c, RefChar)
    ensures IsSpace(c) ==> InClass(c, NoteChar)
  {
  }

  /** "detached " is a word, one space, and then a letter other than 'd'. */
  lemma KeywordShape(s: string, b: nat, kw: string)
    requires kw == "detached at " || kw == "detached from "
    requires OccursAt(s, kw, b)
    ensures AllInRange(s, b, b + 8, Word) && s[b + 8] == ' ' && b + 9 < |s| && s[b + 9] != 'd'
    ensures RunLength(s, b, Word) == 8 && RunLength(s, b + 8, Space) == 1
  {
    OccursAtChars(s, kw, b);
    forall t | b <= t < b + 9 ensures s[t] == "detached "[t - b] {
      assert s[b + (t - b)] == kw[t - b];
    }
    assert s[b + 9] == kw[9];
    RunLengthExact(s, b, 8, Word);
    RunLengthExact(s, b + 8, 1, Space);
  }

  lemma AtTailComplete(s: string, b: nat, x: string)
    requires AtTailForm(s, b, x)
    ensures AtTail(s, b) == Some(x)
  {
    OccursAtAllIn(s, x, b + 12, RefChar);
    OccursAtChars(s, ")", b + 12 + |x|);
    RunLengthExact(s, b + 12, |x|, RefChar);
  }

  lemma AtTailSound(s: string, b: nat)
    requires AtTail(s, b).Some?
    ensures AtTailForm(s, b, AtTail(s, b).value)
  {
    var k := b + 12;
    var n := RunLength(s, k, RefChar);
    RunLengthSpan(s, k, RefChar);
    SliceAllIn(s, k, k + n, RefChar);
    assert s[k + n..k + n + 1] == [')'];
  }

  lemma FromTailComplete(s: string, b: nat, d: nat, e: nat, x: string)
    requires FromTailAt(s, b, d, e, x)
    ensures FromTail(s, b) == Some(x)
  {
    var k := b + 14;
    RunLengthExact(s, k, d - k, RefChar);
    FromTailReachesGap(s, b, d);
    WordAfterGapComplete(s, d + 1, e, x);
  }

  /** Past the keyword and a name ending in ')', `FromTail` is the word after the gap. */
  lemma FromTailReachesGap(s: string, b: nat, d: nat)
    requires OccursAt(s, "detached from ", b) && b + 14 < d < |s| && s[d] == ')'
    requires RunLength(s, b + 14, RefChar) == d - (b + 14)
    ensures FromTail(s, b) == WordAfterGap(s, d + 1)
  {
  }

  lemma WordAfterGapComplete(s: string, g: nat, e: nat, x: string)
    requires GapThenWord(s, g, e, x)
    ensures WordAfterGap(s, g) == Some(x)
  {
    OccursAtAllIn(s, x, e, Word);
    SpaceIsNotWord(s[e]);
    RunLengthExact(s, g, e - g, Space);
    RunLengthExact(s, e, |x|, Word);
  }

  lemma WordAfterGapSound(s: string, g: nat)
    requires WordAfterGap(s, g).Some?
    ensures GapThenWord(s, g, g + RunLength(s, g, Space), WordAfterGap(s, g).value)
  {
    var w := RunLength(s, g, Space);
    var h := RunLength(s, g + w, Word);
    RunLengthSpan(s, g, Space);
    RunLengthSpan(s, g + w, Word);
    RunLengthStops(s, g + w, Word);
    SliceAllIn(s, g + w, g + w + h, Word);
  }

  lemma FromTailSound(s: string, b: nat)
    requires FromTail(s, b).Some?
    ensures exists d: nat, e: nat :: FromTailAt(s, b, d, e, FromTail(s, b).value)
  {
    var k := b + 14;
    var d := k + RunLength(s, k, RefChar);
    RunLengthSpan(s, k, RefChar);
    FromTailReachesGap(s, b, d);
    WordAfterGapSound(s, d + 1);
    assert FromTailAt(s, b, d, d + 1 + RunLength(s, d + 1, Space), FromTail(s, b).value);
  }

  lemma TailIff(pat: Pattern, s: string, b: nat, x: string)
    requires pat != Tracking
    ensures Tail(pat, s, b) == Some(x) <==> TailForm(pat, s, b, x)
  {
    if pat == DetachedAt {
      if AtTailForm(s, b, x) { AtTailComplete(s, b, x); }
      if AtTail(s, b) == Some(x) { AtTailSound(s, b); }
    } else {
      if d: nat, e: nat :| FromTailAt(s, b, d, e, x) { FromTailComplete(s, b, d, e, x); }
      if FromTail(s, b) == Some(x) { FromTailSound(s, b); }
    }
  }

  /** A tail starts with "detached ", which no qualifier run can end in front of. */
  lemma TailStartsWithKeyword(pat: Pattern, s: string, b: nat, x: string)
    requires pat != Tracking
    requires TailForm(pat, s, b, x)
    ensures AllInRange(s, b, b + 8, Word) && s[b + 8] == ' ' && b + 9 < |s| && s[b + 9] != 'd'
    ensures RunLength(s, b, Word) == 8 && RunLength(s, b + 8, Space) == 1
  {
    if pat == DetachedAt {
      KeywordShape(s, b, "detached at ");
    } else {
      var d: nat, e: nat :| FromTailAt(s, b, d, e, x);
      KeywordShape(s, b, "detached from ");
    }
  }

  /** With no qualifier in front of the tail, the qualifier path finds nothing. */
  lemma BareTailSkipsQualifier(pat: Pattern, s: string, j: nat, x: string)
    requires pat != Tracking
    requires TailForm(pat, s, j, x)
    ensures QualifierEnd(s, j) == Some(j + 9) && Tail(pat, s, j + 9).None?
  {
    TailStartsWithKeyword(pat, s, j, x);
    NotOccursAt(s, "detached at ", j + 9);
    NotOccursAt(s, "detached from ", j + 9);
  }

  /** A qualifier in front of the tail is the one the scanner takes. */
  lemma QualifiedTailTaken(pat: Pattern, s: string, j: nat, b: nat, x: string)
    requires pat != Tracking
    requires b != j && QualifierSpan(s, j, b) && TailForm(pat, s, b, x)
    ensures QualifierEnd(s, j) == Some(b)
  {
    var k :| j < k < b && AllInRange(s, j, k, Word) && AllInRange(s, k, b, Space);
    TailStartsWithKeyword(pat, s, b, x);
    QualifierRuns(s, j, k, b);
  }

  /** A word run up to `k`, then a space run up to `b`, then a word character. */
  lemma QualifierRuns(s: string, j: nat, k: nat, b: nat)
    requires j < k < b < |s| && AllInRange(s, j, k, Word) && AllInRange(s, k, b, Space)
    requires IsWordChar(s[b])
    ensures QualifierEnd(s, j) == Some(b)
  {
    SpaceIsNotWord(s[k]);
    SpaceIsNotWord(s[b]);
    RunLengthExact(s, j, k - j, Word);
    RunLengthExact(s, k, b - k, Space);
  }

  lemma DetachedMatchComplete(pat: Pattern, s: string, i: nat, x: string)
    requires pat != Tracking
    requires Form(pat, s, i, x)
    ensures Match(pat, s, i) == Some(x)
  {
    var j := i + 3;
    var b: nat :| QualifierSpan(s, j, b) && TailForm(pat, s, b, x);
    TailIff(pat, s, b, x);
    if b == j {
      BareTailSkipsQualifier(pat, s, j, x);
    } else {
      QualifiedTailTaken(pat, s, j, b, x);
    }
  }

  lemma DetachedMatchSound(pat: Pattern, s: string, i: nat)
    requires pat != Tracking
    requires Match(pat, s, i).Some?
    ensures Form(pat, s, i, Match(pat, s, i).value)
  {
    var x := Match(pat, s, i).value;
    var j := i + 3;
    var q := QualifierEnd(s, j);
    if q.Some? && Tail(pat, s, q.value).Some? {
      var w := RunLength(s, j, Word);
      RunLengthSpan(s, j, Word);
      RunLengthSpan(s, j + w, Space);
      assert AllInRange(s, j, j + w, Word) && AllInRange(s, j + w, q.value, Space);
      assert QualifierSpan(s, j, q.value);
      TailIff(pat, s, q.value, x);
    } else {
      assert QualifierSpan(s, j, j);
      TailIff(pat, s, j, x);
    }
  }

  lemma TrackingMatchComplete(s: string, i: nat, x: string)
    requires Form(Tracking, s, i, x)
    ensures Match(Tracking, s, i) == Some(x)
  {
    var c := i + 1 + |x|;
    TrackingSuffixEnds(s, c);
    OccursAtAllIn(s, x, i + 1, RefChar);
    RunLengthExact(s, i + 1, |x|, RefChar);
    TrackingMatchAt(s, i, |x|);
  }

  /** Both suffixes the description allows end the way the scanner checks for. */
  lemma TrackingSuffixEnds(s: string, c: nat)
    requires TrackingSuffix(s, c)
    ensures TrackingEnds(s, c) && (s[c] == ']' || s[c] == ':')
  {
    if OccursAt(s, "]", c) {
      OccursAtChars(s, "]", c);
    } else {
      var e: nat :| NoteSpan(s, c, e) && e < |s| && s[e] == ']';
      NoteRunEndsAtBracket(s, c, e);
    }
  }

  /** A '[' followed by a name run that the scanner's suffix test accepts. */
  lemma TrackingMatchAt(s: string, i: nat, n: nat)
    requires i < |s| && s[i] == '[' && n > 0 && RunLength(s, i + 1, RefChar) == n
    requires TrackingEnds(s, i + 1 + n)
    ensures Match(Tracking, s, i) == Some(s[i + 1..i + 1 + n])
  {
    var m := Match(Tracking, s, i);
    assert m.Some?;
  }

  lemma NoteRunEndsAtBracket(s: string, c: nat, e: nat)
    requires NoteSpan(s, c, e) && e < |s| && s[e] == ']'
    ensures TrackingEnds(s, c)
  {
    var m :| c + 1 < m < e && AllInRange(s, c + 1, m, Space) && AllInRange(s, m, e, NoteChar);
    assert AllInRange(s, c + 1, e, NoteChar) by {
      forall t | c + 1 <= t < e ensures InClass(s[t], NoteChar) {
        if t < m { SpaceIsNotWord(s[t]); }
      }
    }
    RunLengthExact(s, c + 1, e - (c + 1), NoteChar);
  }

  lemma TrackingMatchSound(s: string, i: nat)
    requires Match(Tracking, s, i).Some?
    ensures Form(Tracking, s, i, Match(Tracking, s, i).value)
  {
    var n := RunLength(s, i + 1, RefChar);
    var c := i + 1 + n;
    assert Match(Tracking, s, i).value == s[i + 1..c] && TrackingEnds(s, c);
    RunLengthSpan(s, i + 1, RefChar);
    SliceAllIn(s, i + 1, c, RefChar);
    TrackingEndsSuffix(s, c);
  }

  /** What the scanner's suffix test accepts is one of the two suffixes of the description. */
  lemma TrackingEndsSuffix(s: string, c: nat)
    requires TrackingEnds(s, c)
    ensures TrackingSuffix(s, c)
  {
    if s[c] == ']' {
      assert s[c..c + 1] == [']'];
    } else {
      var r := RunLength(s, c + 1, NoteChar);
      RunLengthSpan(s, c + 1, NoteChar);
      assert AllInRange(s, c + 1, c + 2, Space);
      assert AllInRange(s, c + 2, c + 1 + r, NoteChar);
      assert NoteSpan(s, c, c + 1 + r);
    }
  }

  /** The scanner at one index captures exactly what the pattern's description allows. */
  lemma MatchIff(pat: Pattern, s: string, i: nat, x: string)
    ensures Match(pat, s, i) == Some(x) <==> Form(pat, s, i, x)
  {
    if pat == Tracking {
      if Form(pat, s, i, x) { TrackingMatchComplete(s, i, x); }
      if Match(pat, s, i) == Some(x) { TrackingMatchSound(s, i); }
    } else {
      if Form(pat, s, i, x) { DetachedMatchComplete(pat, s, i, x); }
      if Match(pat, s, i) == Some(x) { DetachedMatchSound(pat, s, i); }
    }
  }

  lemma NoMatchNoForm(pat: Pattern, s: string, i: nat)
    requires Match(pat, s, i).None?
    ensures forall y :: !Form(pat, s, i, y)
  {
    forall y ensures !Form(pat, s, i, y) { MatchIff(pat, s, i, y); }
  }

  /** `Search` finds the leftmost match from `i`, and finds none only when there is none. */
  lemma {:induction false} SearchFromIff(pat: Pattern, s: string, i: nat)
    ensures Search(pat, s, i).None? ==> forall j: nat, y :: i <= j <= |s| ==> !Form(pat, s, j, y)
    ensures Search(pat, s, i).Some? ==>
      exists j: nat :: i <= j <= |s| && Form(pat, s, j, Search(pat, s, i).value)
        && forall j': nat, y :: i <= j' < j ==> !Form(pat, s, j', y)
    decreases |s| + 1 - i
  {
    if i <= |s| {
      var m := Match(pat, s, i);
      if m.Some? {
        MatchIff(pat, s, i, m.value);
      } else {
        NoMatchNoForm(pat, s, i);
        SearchFromIff(pat, s, i + 1);
        var r := Search(pat, s, i + 1);
        if r.Some? {
          var j: nat :| i + 1 <= j <= |s| && Form(pat, s, j, r.value)
            && forall j': nat, y :: i + 1 <= j' < j ==> !Form(pat, s, j', y);
          assert forall j': nat, y :: i <= j' < j ==> !Form(pat, s, j', y);
        }
      }
    }
  }

  /** `re.search` over a whole line, stated with the pattern's description. */
  lemma SearchIff(pat: Pattern, s: string)
    ensures Search(pat, s, 0).None? <==> NoForm(pat, s)
    ensures Search(pat, s, 0).Some? ==> LeftmostForm(pat, s, Search(pat, s, 0).value)
  {
    SearchFromIff(pat, s, 0);
    if Search(pat, s, 0).Some? {
      var x := Search(pat, s, 0).value;
      var j: nat :| j <= |s| && Form(pat, s, j, x) && forall j': nat, y :: j' < j ==> !Form(pat, s, j', y);
      assert !NoForm(pat, s);
    }
  }

  /*
   * The parser.
   */

  /** The line `_current_ref` stops at: the first one starting with '*'. */
  function FirstMarked(lines: seq<string>): (r: Option<string>)
    ensures r.None? <==> forall k :: 0 <= k < |lines| ==> !StartsWith(lines[k], "*")
    ensures r.Some? ==>
      exists k :: 0 <= k < |lines| && lines[k] == r.value && StartsWith(r.value, "*")
        && forall j :: 0 <= j < k ==> !StartsWith(lines[j], "*")
  {
    if lines == [] then None
    else if StartsWith(lines[0], "*") then Some(lines[0])
    else
      var r := FirstMarked(lines[1..]);
      assert forall k :: 1 <= k < |lines| ==> lines[k] == lines[1..][k - 1];
      r
  }

  /** The reference named on a marked line, by the four cases of `_current_ref` in order. */
  function ClassifyMarkedLine(line: string): (r: Result<string>)
    ensures r.Ok? ==> r.value != []
  {
    if Contains(line, "detached at") then
      match Search(DetachedAt, line, 0)
      case Some(x) => Ok(x)
      case None => Fatal(DetachedAtUnmatched(line))
    else if Contains(line, "detached from") then
      match Search(DetachedFrom, line, 0)
      case Some(x) => Ok(x)
      case None => Fatal(DetachedFromUnmatched(line))
    else if Contains(line, "[") then
      match Search(Tracking, line, 0)
      case Some(x) => Ok(x)
      case None => Fatal(TrackingUnmatched(line))
    else
      var ts := Tokens(line);
      if |ts| < 2 then Fatal(BranchNameMissing(line)) else Ok(ts[1])
  }

  /**
   * What `_current_ref` returns for a `branch -vv` listing (or the fatal error it raises):
   * "" when no line is marked, else what the first marked line classifies as, which the
   * final `strip()` leaves as it is.
   */
  function ParseHead(listing: string): (r: Result<string>)
    ensures r.Ok? ==> NoSpace(r.value)
    ensures FirstMarked(SplitLines(listing)).None? ==> r == Ok("")
    ensures FirstMarked(SplitLines(listing)).Some? ==> r == ClassifyMarkedLine(FirstMarked(SplitLines(listing)).value)
  {
    match FirstMarked(SplitLines(listing))
    case None => Ok(Strip(""))
    case Some(line) =>
      match ClassifyMarkedLine(line)
      case Ok(x) => ClassifiedRefHasNoSpace(line); Ok(Strip(x))
      case Fatal(f) => Fatal(f)
  }

  /** `_current_ref`: scan the listing's lines for the first marked one, then classify it. */
  method CurrentRef(listing: string) returns (r: Result<string>)
    ensures r == ParseHead(listing)
    ensures r.Ok? ==> NoSpace(r.value)
    ensures (forall k :: 0 <= k < |SplitLines(listing)| ==> !StartsWith(SplitLines(listing)[k], "*"))
      ==> r == Ok("")
  {
    var lines := SplitLines(listing);
    var marked := "";
    var i := 0;
    while i < |lines|
      invariant 0 <= i <= |lines|
      invariant marked == ""
      invariant forall k :: 0 <= k < i ==> !StartsWith(lines[k], "*")
    {
      if StartsWith(lines[i], "*") {
        marked := lines[i];
        break;
      }
      i := i + 1;
    }
    ghost var first := FirstMarked(lines);
    var current := "";
    if marked == "" {
      assert first.None?;
    } else {
      assert first == Some(marked) by {
        var k :| 0 <= k < |lines| && lines[k] == first.value
          && StartsWith(first.value, "*") && forall j :: 0 <= j < k ==> !StartsWith(lines[j], "*");
        assert k == i;
      }
      var c := ClassifyMarkedLine(marked);
      if c.Fatal? {
        return c;
      }
      current := c.value;
    }
    r := Ok(Strip(current));
  }

  /*
   * What the parser promises.
   */

  /** The first marked line is the one chosen, whatever comes after it. */
  lemma FirstMarkedLineWins(ls: seq<string>, k: nat)
    requires k < |ls| && StartsWith(ls[k], "*")
    requires forall j :: 0 <= j < k ==> !StartsWith(ls[j], "*")
    ensures FirstMarked(ls) == Some(ls[k])
  {
    var k' :| 0 <= k' < |ls| && ls[k'] == FirstMarked(ls).value && StartsWith(ls[k'], "*")
      && forall j :: 0 <= j < k' ==> !StartsWith(ls[j], "*");
    assert k' == k;
  }

  /**
   * A listing parses as its first marked line classifies: lines before and after never
   * matter. This holds for git's newline-terminated listing, and for the same lines without
   * the final newline when the last one is not empty.
   */
  lemma ListingParsesFirstMarkedLine(ls: seq<string>, k: nat)
    requires k < |ls| && StartsWith(ls[k], "*")
    requires forall j :: 0 <= j < |ls| ==> AllIn(ls[j], LineChar)
    requires forall j :: 0 <= j < k ==> !StartsWith(ls[j], "*")
    ensures ParseHead(JoinLines(ls) + "\n") == ClassifyMarkedLine(ls[k])
    ensures ls[|ls| - 1] != [] ==> ParseHead(JoinLines(ls)) == ClassifyMarkedLine(ls[k])
  {
    SplitJoinLinesTerminated(ls);
    if ls[|ls| - 1] != [] {
      SplitJoinLines(ls);
    }
    FirstMarkedLineWins(ls, k);
    if ClassifyMarkedLine(ls[k]).Ok? {
      ClassifiedRefHasNoSpace(ls[k]);
    }
  }

  /**
   * The four cases of a marked line. A line mentioning "detached at" is read with that
   * pattern even when it also mentions "detached from"; a line whose keyword is present but
   * whose pattern matches nowhere is fatal; a plain line names its second token.
   */
  lemma ClassifyMarkedLineCases(line: string)
    ensures Contains(line, "detached at") ==>
      (ClassifyMarkedLine(line).Ok? <==> !NoForm(DetachedAt, line))
      && (ClassifyMarkedLine(line).Ok? ==> LeftmostForm(DetachedAt, line, ClassifyMarkedLine(line).value))
      && (ClassifyMarkedLine(line).Fatal? ==> ClassifyMarkedLine(line).failure == DetachedAtUnmatched(line))
    ensures !Contains(line, "detached at") && Contains(line, "detached from") ==>
      (ClassifyMarkedLine(line).Ok? <==> !NoForm(DetachedFrom, line))
      && (ClassifyMarkedLine(line).Ok? ==> LeftmostForm(DetachedFrom, line, ClassifyMarkedLine(line).value))
      && (ClassifyMarkedLine(line).Fatal? ==> ClassifyMarkedLine(line).failure == DetachedFromUnmatched(line))
    ensures !Contains(line, "detached at") && !Contains(line, "detached from") && Contains(line, "[") ==>
      (ClassifyMarkedLine(line).Ok? <==> !NoForm(Tracking, line))
      && (ClassifyMarkedLine(line).Ok? ==> LeftmostForm(Tracking, line, ClassifyMarkedLine(line).value))
      && (ClassifyMarkedLine(line).Fatal? ==> ClassifyMarkedLine(line).failure == TrackingUnmatched(line))
    ensures !Contains(line, "detached at") && !Contains(line, "detached from") && !Contains(line, "[") ==>
      (ClassifyMarkedLine(line).Ok? <==> |Tokens(line)| >= 2)
      && (ClassifyMarkedLine(line).Ok? ==> ClassifyMarkedLine(line).value == Tokens(line)[1])
  {
    SearchIff(DetachedAt, line);
    SearchIff(DetachedFrom, line);
    SearchIff(Tracking, line);
  }

  /** Every name a pattern captures is free of whitespace. */
  lemma FormNoSpace(pat: Pattern, s: string, i: nat, x: string)
    requires Form(pat, s, i, x)
    ensures NoSpace(x)
  {
    var cls := RefChar;
    if pat == DetachedFrom {
      var b: nat :| QualifierSpan(s, i + 3, b) && TailForm(pat, s, b, x);
      var d: nat, e: nat :| FromTailAt(s, b, d, e, x);
      cls := Word;
    }
    assert AllIn(x, cls);
    forall t | 0 <= t < |x| ensures !IsSpace(x[t]) {
      assert InClass(x[t], cls);
      SpaceIsNotWord(x[t]);
    }
  }

  /** A classified marked line names a reference without whitespace. */
  lemma ClassifiedRefHasNoSpace(line: string)
    requires ClassifyMarkedLine(line).Ok?
    ensures NoSpace(ClassifyMarkedLine(line).value)
  {
    var x := ClassifyMarkedLine(line).value;
    var pat := if Contains(line, "detached at") then DetachedAt
      else if Contains(line, "detached from") then DetachedFrom else Tracking;
    if Contains(line, "detached at") || Contains(line, "detached from") || Contains(line, "[") {
      ClassifyMarkedLineCases(line);
      var i: nat :| i <= |line| && Form(pat, line, i, x) && forall j: nat, y :: j < i ==> !Form(pat, line, j, y);
      FormNoSpace(pat, line, i, x);
    }
  }

  /**
   * A line without either "detached" keyword is read as a tracking line as soon as a `[`
   * appears on it anywhere, the commit subject included: `* b 1a2b3c4 Fix [x] now` names
   * `x`, not the branch `b`.
   */
  lemma FirstBracketIsReadAsTracking(pre: string, x: string, rest: string)
    requires forall t :: 0 <= t < |pre| ==> pre[t] != '['
    requires x != [] && AllIn(x, RefChar)
    requires !Contains(pre + "[" + x + "]" + rest, "detached at")
    requires !Contains(pre + "[" + x + "]" + rest, "detached from")
    ensures ClassifyMarkedLine(pre + "[" + x + "]" + rest) == Ok(x)
  {
    var s := pre + "[" + x + "]" + rest;
    var i := |pre|;
    assert s[i] == '[';
    assert s[i + 1..i + 1 + |x|] == x;
    assert s[i + 1 + |x|..i + 2 + |x|] == "]";
    assert forall j :: 0 <= j < i ==> s[j] == pre[j];
    FirstBracketForm(s, i, x);
  }

  /**
   * A tracking annotation with the ahead/behind note, `[x: note]`, placed after text with
   * no `[`, is read as the name `x` alone.
   */
  lemma TrackingNoteLineNamesRef(pre: string, x: string, note: string, rest: string)
    requires forall t :: 0 <= t < |pre| ==> pre[t] != '['
    requires x != [] && AllIn(x, RefChar)
    requires |note| >= 2 && IsSpace(note[0]) && AllIn(note, NoteChar)
    requires !Contains(pre + "[" + x + ":" + note + "]" + rest, "detached at")
    requires !Contains(pre + "[" + x + ":" + note + "]" + rest, "detached from")
    ensures ClassifyMarkedLine(pre + "[" + x + ":" + note + "]" + rest) == Ok(x)
  {
    var s := pre + "[" + x + ":" + note + "]" + rest;
    var i := |pre|;
    var c := i + 1 + |x|;
    var e := c + 1 + |note|;
    assert s[i] == '[' && s[c] == ':' && s[e] == ']';
    assert forall j :: 0 <= j < i ==> s[j] == pre[j];
    assert forall t :: 0 <= t < |x| ==> s[i + 1 + t] == x[t];
    OccursAtFromChars(s, x, i + 1);
    forall t | c + 1 <= t < e ensures InClass(s[t], NoteChar) {
      assert s[t] == note[t - c - 1];
    }
    assert IsSpace(s[c + 1]);
    assert NoteSpan(s, c, e) by {
      assert AllInRange(s, c + 1, c + 2, Space) && AllInRange(s, c + 2, e, NoteChar);
    }
    FirstBracketForm(s, i, x);
  }

  /** A line with no keyword whose first `[` opens a tracking annotation naming `x`. */
  lemma FirstBracketForm(s: string, i: nat, x: string)
    requires i < |s| && s[i] == '[' && forall j :: 0 <= j < i ==> s[j] != '['
    requires x != [] && AllIn(x, RefChar) && OccursAt(s, x, i + 1) && TrackingSuffix(s, i + 1 + |x|)
    requires !Contains(s, "detached at") && !Contains(s, "detached from")
    ensures ClassifyMarkedLine(s) == Ok(x)
  {
    assert OccursAt(s, "[", i);
    assert Form(Tracking, s, i, x);
    MatchIff(Tracking, s, i, x);
    SearchIff(Tracking, s);
    var v := Search(Tracking, s, 0).value;
    var i': nat :| i' <= |s| && Form(Tracking, s, i', v) && forall j: nat, y :: j < i' ==> !Form(Tracking, s, j, y);
    assert i' == i;
    MatchIff(Tracking, s, i, v);
  }

  /** A tracked name never keeps the ": ahead N, behind M" annotation. */
  lemma TrackedNameHasNoAnnotation(line: string)
    requires !Contains(line, "detached at") && !Contains(line, "detached from") && Contains(line, "[")
    requires ClassifyMarkedLine(line).Ok?
    ensures AllIn(ClassifyMarkedLine(line).value, RefChar)
    ensures forall t :: 0 <= t < |ClassifyMarkedLine(line).value| ==> ClassifyMarkedLine(line).value[t] != ':'
  {
    ClassifyMarkedLineCases(line);
    var x := ClassifyMarkedLine(line).value;
    var i: nat :| i <= |line| && Form(Tracking, line, i, x) && forall j: nat, y :: j < i ==> !Form(Tracking, line, j, y);
  }

  /*
   * The head states listed in `_current_ref`'s documentation.
   */

  /**
   * A marked line `* (Q detached at X) ...`, Q a word, is read as X: the pattern matches
   * at the very start of the line, so nothing later in the line can change the answer.
   */
  lemma DetachedAtLineNamesRef(q: string, x: string, rest: string)
    requires q != [] && AllIn(q, Word) && x != [] && AllIn(x, RefChar)
    ensures ClassifyMarkedLine("* (" + q + " " + "detached at " + x + ")" + rest) == Ok(x)
  {
    var m := "* (" + q + " " + "detached at " + x + ")" + rest;
    DetachedAtLineForm(q, x, rest);
    MatchIff(DetachedAt, m, 0, x);
  }

  lemma DetachedAtLineForm(q: string, x: string, rest: string)
    requires q != [] && AllIn(q, Word) && x != [] && AllIn(x, RefChar)
    ensures var m := "* (" + q + " " + "detached at " + x + ")" + rest;
      Contains(m, "detached at") && Form(DetachedAt, m, 0, x)
  {
    var pre := "* (" + q + " ";
    var m := pre + "detached at " + x + ")" + rest;
    var t := "detached at " + x + ")" + rest;
    assert m == "* (" + q + " " + t;
    MarkedQualifier(q, t);
    AtTailAfter(pre, x, rest);
    assert DetachedFormFrom(DetachedAt, m, 3, x);
  }

  /** `* (Q ` opens the line and Q followed by a blank is a qualifier. */
  lemma MarkedQualifier(q: string, t: string)
    requires q != [] && AllIn(q, Word)
    ensures StartsWith("* (" + q + " " + t, "* (") && QualifierSpan("* (" + q + " " + t, 3, |q| + 4)
  {
    var m := "* (" + q + " " + t;
    assert m[0] == '*' && m[1] == ' ' && m[2] == '(';
    assert forall i :: 3 <= i < 3 + |q| ==> m[i] == q[i - 3];
    assert AllInRange(m, 3, 3 + |q|, Word);
    assert m[3 + |q|] == ' ';
    assert AllInRange(m, 3 + |q|, |q| + 4, Space);
  }

  /** `detached at X)` placed after any prefix. */
  lemma AtTailAfter(pre: string, x: string, rest: string)
    requires x != [] && AllIn(x, RefChar)
    ensures var m := pre + "detached at " + x + ")" + rest;
      OccursAt(m, "detached at", |pre|) && AtTailForm(m, |pre|, x)
  {
    var kw := "detached at ";
    var m := pre + kw + x + ")" + rest;
    var b := |pre|;
    assert m == pre + kw + (x + ")" + rest);
    OccursInConcat(pre, kw, x + ")" + rest);
    assert m[b..b + 11] == m[b..b + 12][..11];
    assert m == (pre + kw) + x + (")" + rest);
    OccursInConcat(pre + kw, x, ")" + rest);
    assert m[b + 12 + |x|] == ')';
    assert m[b + 12 + |x|..b + 13 + |x|] == ")";
  }

  /** Head state 3 of `_current_ref`'s documentation: detached at a remote branch. */
  lemma DetachedAtRemoteBranchExample()
    ensures ClassifyMarkedLine("* (" + "HEAD" + " " + "detached at " + "origin/feature2" + ")"
      + " 36418b4 Work on feature2") == Ok("origin/feature2")
  {
    var x := "origin/feature2";
    assert AllIn(x, RefChar) by {
      assert x[6] == '/';
    }
    DetachedAtLineNamesRef("HEAD", x, " 36418b4 Work on feature2");
  }

  /**
   * A marked line `* (Q detached from N) H...`, Q a word, N a name and H a word, is read as
   * H, the commit the working copy is at, not as the name N it was detached from. Whatever
   * follows H starts with a non-word character and does not make H and itself spell
   * "detached at".
   */
  lemma DetachedFromLineNamesHash(q: string, n: string, h: string, rest: string)
    requires q != [] && AllIn(q, Word) && n != [] && AllIn(n, RefChar) && h != [] && AllIn(h, Word)
    requires rest == [] || !IsWordChar(rest[0])
    requires !Contains(h + rest, "detached at")
    ensures ClassifyMarkedLine("* (" + q + " " + "detached from " + n + ")" + " " + h + rest) == Ok(h)
  {
    var m := "* (" + q + " " + "detached from " + n + ")" + " " + h + rest;
    DetachedFromLineHasNoAt(q, n, h, rest);
    DetachedFromLineForm(q, n, h, rest);
    MatchIff(DetachedFrom, m, 0, h);
  }

  lemma DetachedFromLineForm(q: string, n: string, h: string, rest: string)
    requires q != [] && AllIn(q, Word) && n != [] && AllIn(n, RefChar) && h != [] && AllIn(h, Word)
    requires rest == [] || !IsWordChar(rest[0])
    ensures var m := "* (" + q + " " + "detached from " + n + ")" + " " + h + rest;
      Contains(m, "detached from") && Form(DetachedFrom, m, 0, h)
  {
    var pre := "* (" + q + " ";
    var m := pre + "detached from " + n + ")" + " " + h + rest;
    var b := |pre|;
    var d := b + 14 + |n|;
    assert forall t :: 0 <= t < |pre| ==> m[t] == pre[t];
    OccursAtFromChars(m, "* (", 0);
    forall t | 3 <= t < b - 1 ensures InClass(m[t], Word) {
      assert m[t] == q[t - 3];
    }
    assert m[b - 1] == ' ';
    assert QualifierSpan(m, 3, b) by {
      assert AllInRange(m, 3, b - 1, Word) && AllInRange(m, b - 1, b, Space);
    }
    FromTailAfter(pre, n, h, rest);
    assert FromTailAt(m, b, d, d + 2, h);
    assert DetachedFormFrom(DetachedFrom, m, 3, h);
  }

  /** `detached from N) H` placed after any prefix. */
  lemma FromTailAfter(pre: string, n: string, h: string, rest: string)
    requires n != [] && AllIn(n, RefChar) && h != [] && AllIn(h, Word)
    requires rest == [] || !IsWordChar(rest[0])
    ensures var m := pre + "detached from " + n + ")" + " " + h + rest;
      var d := |pre| + 14 + |n|;
      OccursAt(m, "detached from", |pre|) && FromTailAt(m, |pre|, d, d + 2, h)
  {
    var head := pre + "detached from " + n + ")" + " ";
    var m := head + h + rest;
    var b := |pre|;
    var d := b + 14 + |n|;
    FromTailHead(pre, n);
    assert forall t :: 0 <= t < |head| ==> m[t] == head[t];
    OccursAtPrefix(head, h, "detached from", b);
    OccursAtPrefix(head + h, rest, "detached from", b);
    OccursAtPrefix(head, h, "detached from ", b);
    OccursAtPrefix(head + h, rest, "detached from ", b);
    assert AllInRange(m, b + 14, d, RefChar);
    assert forall t :: 0 <= t < |h| ==> m[d + 2 + t] == h[t];
    OccursAtFromChars(m, h, d + 2);
    assert d + 2 + |h| < |m| ==> m[d + 2 + |h|] == rest[0];
    assert GapThenWord(m, d + 1, d + 2, h);
  }

  /** `pre` then `detached from N) `: the keyword, the name, ')' and the blank. */
  lemma FromTailHead(pre: string, n: string)
    requires AllIn(n, RefChar)
    ensures var head := pre + "detached from " + n + ")" + " ";
      var b := |pre|;
      var d := b + 14 + |n|;
      |head| == d + 2 && OccursAt(head, "detached from ", b) && OccursAt(head, "detached from", b)
      && AllInRange(head, b + 14, d, RefChar) && head[d] == ')' && head[d + 1] == ' '
  {
    var kw := "detached from ";
    var head := pre + kw + n + ")" + " ";
    var b := |pre|;
    var d := b + 14 + |n|;
    assert forall t :: 0 <= t < |kw| ==> head[b + t] == kw[t];
    OccursAtFromChars(head, kw, b);
    assert head[b..b + 13] == head[b..b + 14][..13];
    forall t | b + 14 <= t < d ensures InClass(head[t], RefChar) {
      assert head[t] == n[t - b - 14];
    }
  }

  /** An occurrence stays where it is when text is appended. */
  lemma OccursAtPrefix(s: string, u: string, p: string, i: nat)
    requires OccursAt(s, p, i)
    ensures OccursAt(s + u, p, i)
  {
    assert (s + u)[i..i + |p|] == s[i..i + |p|];
  }

  /**
   * Where the blanks of `* (Q detached from N) ` are, and the characters next to them.
   */
  lemma DetachedFromHeadBlanks(q: string, n: string)
    requires AllIn(q, Word) && AllIn(n, RefChar)
    ensures var head := "* (" + q + " " + "detached from " + n + ")" + " ";
      var a := 3 + |q|;
      var p := a + 15 + |n|;
      |head| == p + 2 && head[a + 1] == 'd' && head[a + 10] == 'f' && head[a + 13] == 'm'
      && head[p] == ')'
      && forall j :: 0 <= j < |head| && j != 1 && j != a && j != a + 9 && j != a + 14 && j != p + 1
           ==> head[j] != ' '
  {
    var head := "* (" + q + " " + "detached from " + n + ")" + " ";
    var a := 3 + |q|;
    var p := a + 15 + |n|;
    forall j | 0 <= j < |head| && j != 1 && j != a && j != a + 9 && j != a + 14 && j != p + 1
      ensures head[j] != ' '
    {
      if 3 <= j < a {
        assert head[j] == q[j - 3] && InClass(q[j - 3], Word);
      } else if a + 15 <= j < p {
        assert head[j] == n[j - a - 15] && InClass(n[j - a - 15], RefChar);
      }
    }
  }

  /** The only blanks of a `detached from` line before H cannot be the one in "detached at". */
  lemma DetachedFromLineHasNoAt(q: string, n: string, h: string, rest: string)
    requires q != [] && AllIn(q, Word) && n != [] && AllIn(n, RefChar) && h != [] && AllIn(h, Word)
    requires !Contains(h + rest, "detached at")
    ensures !Contains("* (" + q + " " + "detached from " + n + ")" + " " + h + rest, "detached at")
  {
    var kw := "detached at";
    var head := "* (" + q + " " + "detached from " + n + ")" + " ";
    var tl := h + rest;
    var m := head + h + rest;
    var a := 3 + |q|;
    var p := a + 15 + |n|;
    DetachedFromHeadBlanks(q, n);
    assert forall t :: 0 <= t < |head| ==> m[t] == head[t];
    assert forall t :: 0 <= t < |tl| ==> m[p + 2 + t] == tl[t];
    forall i: nat | i <= |m| ensures !OccursAt(m, kw, i) {
      if i + 11 <= |m| {
        var w := m[i..i + 11];
        if i >= p + 2 {
          var v := tl[i - p - 2..i - p + 9];
          assert !OccursAt(tl, kw, i - p - 2) && v != kw;
          assert forall t :: 0 <= t < 11 ==> w[t] == v[t];
          assert w == v;
        } else if i + 8 > p + 1 {
          assert w[p + 1 - i] == ' ' != kw[p + 1 - i];
        } else if i + 8 == a {
          assert w[9] == 'd' != kw[9];
        } else if i + 8 == a + 9 {
          assert w[9] == 'f' != kw[9];
        } else if i + 8 == a + 14 {
          assert w[7] == 'm' != kw[7];
        } else if i + 8 == p + 1 {
          assert w[7] == ')' != kw[7];
        } else {
          assert w[8] != ' ' == kw[8];
        }
      }
    }
  }

  /** Head state 2 of `_current_ref`'s documentation: detached from a remote branch. */
  lemma DetachedFromRemoteBranchExample()
    ensures ClassifyMarkedLine("* (" + "HEAD" + " " + "detached from " + "origin/feature2" + ")"
      + " " + "1c455f6" + " work on great new feature!") == Ok("1c455f6")
  {
    var n := "origin/feature2";
    assert AllIn(n, RefChar) by {
      assert n[6] == '/';
    }
    var tl := "1c455f6" + " work on great new feature!";
    assert !Contains(tl, "detached at") by {
      forall t | 0 <= t < |tl| ensures tl[t] != 'd' { }
      forall i: nat | i <= |tl| ensures !OccursAt(tl, "detached at", i) {
        if i + 11 <= |tl| { assert tl[i..i + 11][0] == tl[i]; }
      }
    }
    DetachedFromLineNamesHash("HEAD", n, "1c455f6", " work on great new feature!");
  }

  /** Head state 7 of `_current_ref`'s documentation: a branch ahead of and behind its remote. */
  lemma TrackingAheadBehindExample()
    ensures ClassifyMarkedLine("* master 408a8920 " + "[" + "origin/master" + ":" + " ahead 3, behind 2"
      + "]" + " more junk") == Ok("origin/master")
  {
    var pre, x, note, rest := "* master 408a8920 ", "origin/master", " ahead 3, behind 2", " more junk";
    var s := pre + "[" + x + ":" + note + "]" + rest;
    assert AllIn(x, RefChar) by {
      assert x[6] == '/';
    }
    assert AllIn(note, NoteChar) by {
      assert note[8] == ',';
    }
    assert forall t :: 0 <= t < |pre| ==> pre[t] != '[' && pre[t] != 'c';
    assert forall t :: 0 <= t < |x| ==> x[t] != 'c';
    assert forall t :: 0 <= t < |note| ==> note[t] != 'c';
    assert forall t :: 0 <= t < |rest| ==> rest[t] != 'c';
    NoKeywordWithoutC(s);
    TrackingNoteLineNamesRef(pre, x, note, rest);
  }

  /** Both keywords have a 'c': a line without one contains neither. */
  lemma NoKeywordWithoutC(s: string)
    requires forall t :: 0 <= t < |s| ==> s[t] != 'c'
    ensures !Contains(s, "detached at") && !Contains(s, "detached from")
  {
    forall i: nat | i <= |s| ensures !OccursAt(s, "detached at", i) && !OccursAt(s, "detached from", i) {
      if i + 11 <= |s| { assert s[i..i + 11][4] == s[i + 4]; }
      if i + 13 <= |s| { assert s[i..i + 13][4] == s[i + 4]; }
    }
  }
}
