/**
 * The Python string operations the repository logic relies on, over `seq<char>`:
 * `str.isspace`, `str.strip()`, `str.strip(chars)`, `str.split()`, `str.split(sep)`,
 * `str.splitlines()`, `str.startswith`, the `in` substring test and `str.replace(c, '')`.
 * Regular-expression character classes are spelled out as `CharClass` values.
 */
module Text {

  /** The character classes used by the three head-state patterns and by the splitters. */
  datatype CharClass =
    | Word        // `\w`, restricted to ASCII letters, digits and underscore
    | Space       // `\s`, the characters Python's `str.isspace` accepts
    | NonSpace    // anything `str.split()` keeps inside a token
    | RefChar     // `[\w\-./]`
    | NoteChar    // `[\w\s,]`
    | LineChar    // anything that is not a `str.splitlines` boundary
    | Except(c: char)

  predicate IsWordChar(c: char) {
    ('a' <= c <= 'z') || ('A' <= c <= 'Z') || ('0' <= c <= '9') || c == '_'
  }

  /** Python's `str.isspace` on one character. */
  predicate IsSpace(c: char) {
    var n := c as int;
    (9 <= n <= 13) || (28 <= n <= 32) || n == 0x85 || n == 0xA0 || n == 0x1680
    || (0x2000 <= n <= 0x200A) || n == 0x2028 || n == 0x2029 || n == 0x202F
    || n == 0x205F || n == 0x3000
  }

  /** A line boundary of Python's `str.splitlines` ("\r\n" is handled by `SplitLines`). */
  predicate IsLineBreak(c: char) {
    var n := c as int;
    (10 <= n <= 13) || (28 <= n <= 30) || n == 0x85 || n == 0x2028 || n == 0x2029
  }

  predicate InClass(c: char, cls: CharClass) {
    match cls
    case Word => IsWordChar(c)
    case Space => IsSpace(c)
    case NonSpace => !IsSpace(c)
    case RefChar => IsWordChar(c) || c == '-' || c == '.' || c == '/'
    case NoteChar => IsWordChar(c) || IsSpace(c) || c == ','
    case LineChar => !IsLineBreak(c)
    case Except(d) => c != d
  }

  predicate AllIn(x: string, cls: CharClass) {
    forall t :: 0 <= t < |x| ==> InClass(x[t], cls)
  }

  /** Every character of `s[a..b]` is in `cls`. */
  predicate AllInRange(s: string, a: nat, b: nat, cls: CharClass) {
    a <= b <= |s| && forall t :: a <= t < b ==> InClass(s[t], cls)
  }

  predicate NoSpace(x: string) {
    forall t {:trigger IsSpace(x[t])} :: 0 <= t < |x| ==> !IsSpace(x[t])
  }

  /** Length of the longest run of `cls` characters starting at `i` (a greedy `cls+`). */
  function RunLength(s: string, i: nat, cls: CharClass): (n: nat)
    ensures n > 0 ==> i + n <= |s|
    decreases |s| - i
  {
    if i < |s| && InClass(s[i], cls) then 1 + RunLength(s, i + 1, cls) else 0
  }

  /** The run is made of `cls` characters. */
  lemma {:induction false} RunLengthSpan(s: string, i: nat, cls: CharClass)
    ensures forall t {:trigger InClass(s[t], cls)} :: i <= t < i + RunLength(s, i, cls) ==> InClass(s[t], cls)
    decreases |s| - i
  {
    if i < |s| && InClass(s[i], cls) {
      RunLengthSpan(s, i + 1, cls);
    }
  }

  /** The run stops at the end or at a character outside `cls`. */
  lemma {:induction false} RunLengthStops(s: string, i: nat, cls: CharClass)
    ensures i + RunLength(s, i, cls) < |s| ==> !InClass(s[i + RunLength(s, i, cls)], cls)
    decreases |s| - i
  {
    if i < |s| && InClass(s[i], cls) {
      RunLengthStops(s, i + 1, cls);
    }
  }

  /** A run that is followed by a character outside `cls` (or by the end) is the whole run. */
  lemma {:induction false} RunLengthExact(s: string, i: nat, m: nat, cls: CharClass)
    requires AllInRange(s, i, i + m, cls)
    requires i + m == |s| || !InClass(s[i + m], cls)
    ensures RunLength(s, i, cls) == m
    decreases m
  {
    if m > 0 {
      assert InClass(s[i], cls);
      RunLengthExact(s, i + 1, m - 1, cls);
    }
  }

  /** `p` occurs in `s` starting at index `i`. */
  predicate OccursAt(s: string, p: string, i: nat) {
    i + |p| <= |s| && s[i..i + |p|] == p
  }

  /** The characters of an occurrence, one by one. */
  lemma OccursAtChars(s: string, p: string, i: nat)
    requires OccursAt(s, p, i)
    ensures forall t :: 0 <= t < |p| ==> s[i + t] == p[t]
  {
    forall t | 0 <= t < |p| ensures s[i + t] == p[t] {
      assert s[i..i + |p|][t] == s[i + t];
    }
  }

  /** An occurrence, from its characters. */
  lemma OccursAtFromChars(s: string, p: string, i: nat)
    requires i + |p| <= |s|
    requires forall t :: 0 <= t < |p| ==> s[i + t] == p[t]
    ensures OccursAt(s, p, i)
  {
    assert s[i..i + |p|] == p;
  }

  /** A string cannot occur where its first character does not. */
  lemma NotOccursAt(s: string, p: string, i: nat)
    requires p != [] && i < |s| && s[i] != p[0]
    ensures !OccursAt(s, p, i)
  {
  }

  /** An occurrence of a string whose characters are all in `cls` is a range of `cls`. */
  lemma OccursAtAllIn(s: string, p: string, i: nat, cls: CharClass)
    requires OccursAt(s, p, i) && AllIn(p, cls)
    ensures AllInRange(s, i, i + |p|, cls)
  {
    OccursAtChars(s, p, i);
    forall t | i <= t < i + |p| ensures InClass(s[t], cls) {
      assert s[i + (t - i)] == p[t - i];
    }
  }

  /** A range of `cls` characters, cut out, is a string of `cls` characters. */
  lemma SliceAllIn(s: string, a: nat, b: nat, cls: CharClass)
    requires AllInRange(s, a, b, cls)
    ensures AllIn(s[a..b], cls) && OccursAt(s, s[a..b], a)
  {
    forall t | 0 <= t < b - a ensures InClass(s[a..b][t], cls) {
      assert s[a..b][t] == s[a + t];
    }
  }

  /** A piece written between two others occurs where the first one ends. */
  lemma OccursInConcat(a: string, p: string, b: string)
    ensures OccursAt(a + p + b, p, |a|)
  {
    assert (a + p + b)[|a|..|a| + |p|] == p;
  }

  /** Python's `p in s`. */
  predicate Contains(s: string, p: string) {
    exists i: nat :: i <= |s| && OccursAt(s, p, i)
  }

  /** Python's `s.startswith(p)`. */
  predicate StartsWith(s: string, p: string) {
    OccursAt(s, p, 0)
  }

  function TrimLeft(s: string): string
  {
    if s != [] && IsSpace(s[0]) then TrimLeft(s[1..]) else s
  }

  function TrimRight(s: string): string
  {
    if s != [] && IsSpace(s[|s| - 1]) then TrimRight(s[..|s| - 1]) else s
  }

  /** Python's `s.strip()`: drops leading and trailing whitespace and nothing else. */
  function Strip(s: string): (r: string)
    ensures r == [] || (!IsSpace(r[0]) && !IsSpace(r[|r| - 1]))
    ensures exists a: nat ::
      a + |r| <= |s| && OccursAt(s, r, a)
      && (forall t :: 0 <= t < a ==> IsSpace(s[t]))
      && (forall t :: a + |r| <= t < |s| ==> IsSpace(s[t]))
    ensures r == [] <==> forall t :: 0 <= t < |s| ==> IsSpace(s[t])
    ensures NoSpace(s) ==> r == s
  {
    StripParts(s);
    TrimRight(TrimLeft(s))
  }

  /** `strip()` of a text padded with whitespace on both sides gives back the text. */
  lemma StripPadded(g: string, x: string, h: string)
    requires forall t :: 0 <= t < |g| ==> IsSpace(g[t])
    requires forall t :: 0 <= t < |h| ==> IsSpace(h[t])
    requires x != [] && !IsSpace(x[0]) && !IsSpace(x[|x| - 1])
    ensures Strip(g + x + h) == x
  {
    var s := g + x + h;
    var r := Strip(s);
    var a: nat :| a + |r| <= |s| && OccursAt(s, r, a)
      && (forall t :: 0 <= t < a ==> IsSpace(s[t]))
      && (forall t :: a + |r| <= t < |s| ==> IsSpace(s[t]));
    var e := |g| + |x|;
    assert s[|g|] == x[0] && s[e - 1] == x[|x| - 1];
    assert r != [] by {
      assert !IsSpace(s[|g|]);
    }
    assert r[0] == s[a] && r[|r| - 1] == s[a + |r| - 1];
    assert forall t :: 0 <= t < |g| ==> s[t] == g[t];
    assert forall t :: e <= t < |s| ==> s[t] == h[t - e];
    assert a == |g|;
    assert a + |r| == e;
    assert r == s[|g|..e];
  }

  lemma {:induction false} TrimLeftSpec(s: string)
    ensures |TrimLeft(s)| <= |s| && TrimLeft(s) == s[|s| - |TrimLeft(s)|..]
    ensures TrimLeft(s) == [] || !IsSpace(TrimLeft(s)[0])
    ensures forall t :: 0 <= t < |s| - |TrimLeft(s)| ==> IsSpace(s[t])
  {
    if s != [] && IsSpace(s[0]) {
      var r := TrimLeft(s[1..]);
      TrimLeftSpec(s[1..]);
      assert TrimLeft(s) == r;
      assert s[1..][|s| - 1 - |r|..] == s[|s| - |r|..];
      forall t | 0 <= t < |s| - |r| ensures IsSpace(s[t]) {
        if t > 0 {
          assert s[t] == s[1..][t - 1];
        }
      }
    }
  }

  lemma {:induction false} TrimRightSpec(s: string)
    ensures |TrimRight(s)| <= |s| && TrimRight(s) == s[..|TrimRight(s)|]
    ensures TrimRight(s) == [] || !IsSpace(TrimRight(s)[|TrimRight(s)| - 1])
    ensures forall t :: |TrimRight(s)| <= t < |s| ==> IsSpace(s[t])
  {
    if s != [] && IsSpace(s[|s| - 1]) {
      var p := s[..|s| - 1];
      var r := TrimRight(p);
      TrimRightSpec(p);
      assert TrimRight(s) == r;
      assert p[..|r|] == s[..|r|];
      forall t | |r| <= t < |s| ensures IsSpace(s[t]) {
        if t < |s| - 1 {
          assert s[t] == p[t];
        }
      }
    }
  }

  lemma StripParts(s: string)
    ensures var r := TrimRight(TrimLeft(s));
      r == [] || (!IsSpace(r[0]) && !IsSpace(r[|r| - 1]))
    ensures |TrimLeft(s)| <= |s|
    ensures var l := TrimLeft(s);
      |s| - |l| + |TrimRight(l)| <= |s| && OccursAt(s, TrimRight(l), |s| - |l|)
      && (forall t :: 0 <= t < |s| - |l| ==> IsSpace(s[t]))
      && (forall t :: |s| - |l| + |TrimRight(l)| <= t < |s| ==> IsSpace(s[t]))
    ensures TrimRight(TrimLeft(s)) == [] <==> forall t :: 0 <= t < |s| ==> IsSpace(s[t])
    ensures NoSpace(s) ==> TrimRight(TrimLeft(s)) == s
  {
    var l := TrimLeft(s);
    var r := TrimRight(l);
    TrimLeftSpec(s);
    TrimRightSpec(l);
    var a := |s| - |l|;
    assert s[a..a + |r|] == l[..|r|];
    assert r != [] ==> r[0] == l[0];
    forall t | a + |r| <= t < |s| ensures IsSpace(s[t]) {
      assert s[t] == l[t - a];
    }
    StripEmptyIff(s, l, r);
    StripKeepsTrimmed(s, l, r);
  }

  lemma StripEmptyIff(s: string, l: string, r: string)
    requires |r| <= |l| <= |s|
    requires l == s[|s| - |l|..] && r == l[..|r|]
    requires l == [] || !IsSpace(l[0])
    requires forall t :: 0 <= t < |s| - |l| ==> IsSpace(s[t])
    requires forall t :: |r| <= t < |l| ==> IsSpace(l[t])
    ensures r == [] <==> forall t :: 0 <= t < |s| ==> IsSpace(s[t])
  {
    assert l != [] ==> l[0] == s[|s| - |l|];
    assert l != [] ==> !IsSpace(l[0]);
  }

  lemma StripKeepsTrimmed(s: string, l: string, r: string)
    requires |r| <= |l| <= |s|
    requires l == s[|s| - |l|..] && r == l[..|r|]
    requires forall t :: 0 <= t < |s| - |l| ==> IsSpace(s[t])
    requires forall t :: |r| <= t < |l| ==> IsSpace(l[t])
    ensures NoSpace(s) ==> r == s
  {
    assert |s| - |l| > 0 ==> IsSpace(s[0]);
    assert |r| < |l| ==> IsSpace(l[|l| - 1]) && l[|l| - 1] == s[|s| - 1];
  }

  function TrimLeftChar(s: string, c: char): string
  {
    if s != [] && s[0] == c then TrimLeftChar(s[1..], c) else s
  }

  function TrimRightChar(s: string, c: char): string
  {
    if s != [] && s[|s| - 1] == c then TrimRightChar(s[..|s| - 1], c) else s
  }

  /** Python's `s.strip(c)` for a one-character argument. */
  function StripChar(s: string, c: char): string
  {
    TrimRightChar(TrimLeftChar(s, c), c)
  }

  lemma {:induction false} TrimLeftCharSpec(s: string, c: char)
    ensures |TrimLeftChar(s, c)| <= |s| && TrimLeftChar(s, c) == s[|s| - |TrimLeftChar(s, c)|..]
    ensures TrimLeftChar(s, c) == [] || TrimLeftChar(s, c)[0] != c
    ensures forall t :: 0 <= t < |s| - |TrimLeftChar(s, c)| ==> s[t] == c
  {
    if s != [] && s[0] == c {
      var r := TrimLeftChar(s[1..], c);
      TrimLeftCharSpec(s[1..], c);
      assert TrimLeftChar(s, c) == r;
      assert s[1..][|s| - 1 - |r|..] == s[|s| - |r|..];
      forall t | 0 <= t < |s| - |r| ensures s[t] == c {
        if t > 0 {
          assert s[t] == s[1..][t - 1];
        }
      }
    }
  }

  lemma {:induction false} TrimRightCharSpec(s: string, c: char)
    ensures |TrimRightChar(s, c)| <= |s| && TrimRightChar(s, c) == s[..|TrimRightChar(s, c)|]
    ensures TrimRightChar(s, c) == [] || TrimRightChar(s, c)[|TrimRightChar(s, c)| - 1] != c
    ensures forall t :: |TrimRightChar(s, c)| <= t < |s| ==> s[t] == c
  {
    if s != [] && s[|s| - 1] == c {
      var p := s[..|s| - 1];
      var r := TrimRightChar(p, c);
      TrimRightCharSpec(p, c);
      assert TrimRightChar(s, c) == r;
      assert p[..|r|] == s[..|r|];
      forall t | |r| <= t < |s| ensures s[t] == c {
        if t < |s| - 1 {
          assert s[t] == p[t];
        }
      }
    }
  }

  /**
   * `s.strip(c)` removes exactly the runs of `c` at both ends: what is left is a slice of
   * `s` that neither starts nor ends with `c`, and everything cut off was `c`.
   */
  lemma StripCharSpec(s: string, c: char)
    ensures var r := StripChar(s, c);
      r == [] || (r[0] != c && r[|r| - 1] != c)
    ensures var r := StripChar(s, c);
      exists a: nat :: OccursAt(s, r, a)
        && (forall t :: 0 <= t < a ==> s[t] == c)
        && (forall t :: a + |r| <= t < |s| ==> s[t] == c)
  {
    var l := TrimLeftChar(s, c);
    TrimLeftCharSpec(s, c);
    TrimRightCharSpec(l, c);
    var r := StripChar(s, c);
    var a := |s| - |l|;
    assert r == s[a..a + |r|];
    assert OccursAt(s, r, a);
    assert forall t :: a + |r| <= t < |s| ==> s[t] == l[t - a];
  }

  /** Python's `s.split()`: the maximal runs of non-whitespace characters, in order. */
  function Tokens(s: string): (ts: seq<string>)
    ensures forall k :: 0 <= k < |ts| ==> ts[k] != [] && NoSpace(ts[k])
    ensures NoSpace(s) && s != [] ==> ts == [s]
    decreases |s|
  {
    if s == [] then []
    else if IsSpace(s[0]) then Tokens(s[1..])
    else
      var n := RunLength(s, 0, NonSpace);
      assert n > 0 && NoSpace(s[..n]) by {
        RunLengthSpan(s, 0, NonSpace);
        forall t | 0 <= t < n ensures !IsSpace(s[..n][t]) { assert InClass(s[t], NonSpace); }
      }
      assert NoSpace(s) ==> s[..n] == s && s[n..] == [] by {
        if NoSpace(s) {
          RunLengthExact(s, 0, |s|, NonSpace);
        }
      }
      [s[..n]] + Tokens(s[n..])
  }

  /** `split()` finds no field exactly in a string of whitespace only. */
  lemma {:induction false} TokensOfSpace(s: string)
    ensures Tokens(s) == [] <==> forall t :: 0 <= t < |s| ==> IsSpace(s[t])
    decreases |s|
  {
    if s != [] && IsSpace(s[0]) {
      TokensOfSpace(s[1..]);
      assert (forall t :: 0 <= t < |s| ==> IsSpace(s[t]))
        <==> (forall t :: 0 <= t < |s[1..]| ==> IsSpace(s[1..][t])) by {
        assert forall t :: 1 <= t < |s| ==> s[t] == s[1..][t - 1];
      }
    }
  }

  /**
   * The fields of `split()` are the maximal whitespace-free runs in order: after leading
   * whitespace `g`, a run `w` that ends at whitespace or at the end is the next field.
   */
  lemma {:induction false} TokensStep(g: string, w: string, rest: string)
    requires forall t :: 0 <= t < |g| ==> IsSpace(g[t])
    requires w != [] && NoSpace(w)
    requires rest == [] || IsSpace(rest[0])
    ensures Tokens(g + w + rest) == [w] + Tokens(rest)
    decreases |g|
  {
    var s := g + w + rest;
    if g != [] {
      assert s[0] == g[0];
      assert s[1..] == g[1..] + w + rest;
      TokensStep(g[1..], w, rest);
    } else {
      assert s == w + rest;
      assert AllInRange(s, 0, |w|, NonSpace) by {
        forall t | 0 <= t < |w| ensures InClass(s[t], NonSpace) { assert s[t] == w[t]; }
      }
      assert |w| < |s| ==> s[|w|] == rest[0];
      RunLengthExact(s, 0, |w|, NonSpace);
      assert s[..|w|] == w && s[|w|..] == rest;
    }
  }

  /** Python's `s.splitlines()` (no trailing empty line; "\r\n" is one boundary). */
  function SplitLines(s: string): (ls: seq<string>)
    ensures forall k :: 0 <= k < |ls| ==> AllIn(ls[k], LineChar)
    decreases |s|
  {
    if s == [] then []
    else
      var i := RunLength(s, 0, LineChar);
      assert AllIn(s[..i], LineChar) by {
        RunLengthSpan(s, 0, LineChar);
        forall t | 0 <= t < i ensures InClass(s[..i][t], LineChar) { assert InClass(s[t], LineChar); }
      }
      if i == |s| then [s]
      else
        var next := if s[i] == '\r' && i + 1 < |s| && s[i + 1] == '\n' then i + 2 else i + 1;
        [s[..i]] + SplitLines(s[next..])
  }

  /** The text of `ls` joined by newlines: the shape of a command's listing. */
  function JoinLines(ls: seq<string>): string
  {
    if |ls| == 0 then []
    else if |ls| == 1 then ls[0]
    else ls[0] + "\n" + JoinLines(ls[1..])
  }

  /** Splitting a newline-joined listing gives back its lines. */
  lemma {:induction false} SplitJoinLines(ls: seq<string>)
    requires forall k :: 0 <= k < |ls| ==> AllIn(ls[k], LineChar)
    requires ls != [] ==> ls[|ls| - 1] != []
    ensures SplitLines(JoinLines(ls)) == ls
    decreases |ls|
  {
    if |ls| == 1 {
      RunLengthExact(ls[0], 0, |ls[0]|, LineChar);
    } else if |ls| > 1 {
      var rest := ls[1..];
      assert forall k :: 0 <= k < |rest| ==> AllIn(rest[k], LineChar) by {
        forall k | 0 <= k < |rest| ensures AllIn(rest[k], LineChar) { assert rest[k] == ls[k + 1]; }
      }
      assert rest[|rest| - 1] == ls[|ls| - 1];
      JoinLinesNonEmpty(rest);
      assert JoinLines(ls) == ls[0] + "\n" + JoinLines(rest);
      SplitLinesStep(ls[0], JoinLines(rest));
      SplitJoinLines(rest);
      assert ls == [ls[0]] + rest;
    }
  }

  /** Splitting a listing whose every line ends in a newline, as git prints one, gives back its lines. */
  lemma {:induction false} SplitJoinLinesTerminated(ls: seq<string>)
    requires ls != []
    requires forall k :: 0 <= k < |ls| ==> AllIn(ls[k], LineChar)
    ensures SplitLines(JoinLines(ls) + "\n") == ls
    decreases |ls|
  {
    if |ls| == 1 {
      SplitLinesStep(ls[0], []);
      assert ls[0] + "\n" + [] == JoinLines(ls) + "\n";
    } else {
      var rest := ls[1..];
      assert forall k :: 0 <= k < |rest| ==> AllIn(rest[k], LineChar) by {
        forall k | 0 <= k < |rest| ensures AllIn(rest[k], LineChar) { assert rest[k] == ls[k + 1]; }
      }
      assert JoinLines(ls) + "\n" == ls[0] + "\n" + (JoinLines(rest) + "\n");
      SplitLinesStep(ls[0], JoinLines(rest) + "\n");
      SplitJoinLinesTerminated(rest);
      assert ls == [ls[0]] + rest;
    }
  }

  /** A line and a newline split off as that line, whatever the remainder. */
  lemma SplitLinesStep(a: string, rest: string)
    requires AllIn(a, LineChar)
    ensures SplitLines(a + "\n" + rest) == [a] + SplitLines(rest)
  {
    var s := a + "\n" + rest;
    assert AllInRange(s, 0, |a|, LineChar) by {
      forall t | 0 <= t < |a| ensures InClass(s[t], LineChar) {
        assert s[t] == a[t];
      }
    }
    assert s[|a|] == '\n';
    RunLengthExact(s, 0, |a|, LineChar);
    assert s[..|a|] == a;
    assert s[|a| + 1..] == rest;
  }

  lemma {:induction false} JoinLinesNonEmpty(ls: seq<string>)
    requires ls != [] && ls[|ls| - 1] != []
    ensures JoinLines(ls) != []
    decreases |ls|
  {
    if |ls| > 1 {
      assert ls[1..][|ls[1..]| - 1] == ls[|ls| - 1];
      JoinLinesNonEmpty(ls[1..]);
    }
  }

  /** Python's `s.split(c)`: always at least one piece, and no piece contains `c`. */
  function SplitOn(s: string, c: char): (ps: seq<string>)
    ensures |ps| >= 1
    ensures forall k :: 0 <= k < |ps| ==> AllIn(ps[k], Except(c))
    decreases |s|
  {
    var i := RunLength(s, 0, Except(c));
    assert AllIn(s[..i], Except(c)) by {
      RunLengthSpan(s, 0, Except(c));
      forall t | 0 <= t < i ensures InClass(s[..i][t], Except(c)) { assert InClass(s[t], Except(c)); }
    }
    if i == |s| then [s] else [s[..i]] + SplitOn(s[i + 1..], c)
  }

  /** Python's `c.join(ps)` for a one-character separator. */
  function JoinWith(ps: seq<string>, c: char): string
    decreases |ps|
  {
    if |ps| == 0 then []
    else if |ps| == 1 then ps[0]
    else ps[0] + [c] + JoinWith(ps[1..], c)
  }

  /** Splitting on `c` loses nothing: joining the pieces with `c` rebuilds the string. */
  lemma {:induction false} SplitOnJoin(s: string, c: char)
    ensures JoinWith(SplitOn(s, c), c) == s
    decreases |s|
  {
    var i := RunLength(s, 0, Except(c));
    RunLengthStops(s, 0, Except(c));
    if i < |s| {
      SplitOnJoin(s[i + 1..], c);
      var ps := SplitOn(s, c);
      assert ps == [s[..i]] + SplitOn(s[i + 1..], c);
      assert ps[1..] == SplitOn(s[i + 1..], c);
      assert s[i] == c;
      assert s == s[..i] + [c] + s[i + 1..];
    }
  }

  /** Python's `s.replace(c, '')`. */
  function RemoveChar(s: string, c: char): string
  {
    if s == [] then []
    else if s[0] == c then RemoveChar(s[1..], c)
    else [s[0]] + RemoveChar(s[1..], c)
  }

  /** `s` with every character that occurs in `cs` dropped, order kept. */
  function Without(s: string, cs: string): string
  {
    if s == [] then []
    else if s[0] in cs then Without(s[1..], cs)
    else [s[0]] + Without(s[1..], cs)
  }

  /** Removing one more character extends the set of removed characters by one. */
  lemma {:induction false} RemoveCharExtendsWithout(s: string, cs: string, c: char)
    ensures RemoveChar(Without(s, cs), c) == Without(s, cs + [c])
    decreases |s|
  {
    if s != [] {
      RemoveCharExtendsWithout(s[1..], cs, c);
      assert (s[0] in cs + [c]) == (s[0] in cs || s[0] == c);
    }
  }

  /** What `Without` keeps: only characters of `s` outside `cs`, and all of `s` when none is in `cs`. */
  lemma {:induction false} WithoutKeeps(s: string, cs: string)
    ensures forall t :: 0 <= t < |Without(s, cs)| ==> Without(s, cs)[t] !in cs && Without(s, cs)[t] in s
    ensures (forall t :: 0 <= t < |s| ==> s[t] !in cs) ==> Without(s, cs) == s
    decreases |s|
  {
    if s != [] {
      WithoutKeeps(s[1..], cs);
      var r := Without(s[1..], cs);
      assert forall t :: 0 <= t < |r| ==> r[t] in s by {
        forall t | 0 <= t < |r| ensures r[t] in s {
          var u :| 0 <= u < |s[1..]| && s[1..][u] == r[t];
          assert s[u + 1] == r[t];
        }
      }
      if s[0] !in cs {
        assert Without(s, cs) == [s[0]] + r;
      }
    }
  }
}
