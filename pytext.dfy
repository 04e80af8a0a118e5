/**
 Models of the Python string and path primitives the editor and the icon
 resolver are built on: `str.splitlines`, `str.join`, `str.split(sep, 1)`,
 `str.lstrip`, `str.lower`, the substring test `x in s`, `str.rfind` and
 `os.path.splitext` (the POSIX variant).
 */
module PyText {
  import opened Wrappers

  /** The line boundaries recognised by Python's `str.splitlines`. */
  predicate IsLineBreak(c: char)
  {
    c == '\n' || c == '\r' || c == '\U{0B}' || c == '\U{0C}' || c == '\U{1C}' ||
    c == '\U{1D}' || c == '\U{1E}' || c == '\U{85}' || c == '\U{2028}' || c == '\U{2029}'
  }

  /** `s` holds no line boundary at all. */
  predicate NoLineBreak(s: string)
  {
    forall k :: 0 <= k < |s| ==> !IsLineBreak(s[k])
  }

  /** The only line boundary `s` holds, if any, is `'\n'`. */
  predicate OnlyNewlineBreaks(s: string)
  {
    forall k :: 0 <= k < |s| ==> IsLineBreak(s[k]) ==> s[k] == '\n'
  }

  /** Index of the first line boundary of `s`, or `|s|` when there is none. */
  function FirstLineBreak(s: string): (i: nat)
    ensures i <= |s|
    ensures i < |s| ==> IsLineBreak(s[i])
    ensures NoLineBreak(s[..i])
  {
    if s == [] then 0
    else if IsLineBreak(s[0]) then 0
    else
      var j := FirstLineBreak(s[1..]);
      assert s[..1 + j] == [s[0]] + s[1..][..j];
      1 + j
  }

  /**
   `str.splitlines()`: the lines of `s` without their terminators. A final
   terminator does not start another line and `"\r\n"` is one boundary.
   */
  function SplitLines(s: string): (lines: seq<string>)
    ensures forall k :: 0 <= k < |lines| ==> NoLineBreak(lines[k])
    ensures lines == [] <==> s == []
    decreases |s|
  {
    if s == [] then []
    else
      var i := FirstLineBreak(s);
      if i == |s| then [s]
      else
        [s[..i]] + SplitLines(s[i + BreakWidth(s, i)..])
  }

  /** The length of the boundary at `i`: two for `"\r\n"`, one otherwise. */
  function BreakWidth(s: string, i: nat): nat
    requires i < |s|
  {
    if s[i] == '\r' && i + 1 < |s| && s[i + 1] == '\n' then 2 else 1
  }

  /** `sep.join(parts)`. */
  function Join(sep: string, parts: seq<string>): (r: string)
    ensures |r| == TotalLength(parts) + (if parts == [] then 0 else (|parts| - 1) * |sep|)
    ensures parts != [] ==> |parts[0]| <= |r| && r[..|parts[0]|] == parts[0]
  {
    if parts == [] then ""
    else if |parts| == 1 then parts[0]
    else parts[0] + sep + Join(sep, parts[1..])
  }

  /** The sum of the lengths of `parts`. */
  function TotalLength(parts: seq<string>): nat
  {
    if parts == [] then 0 else |parts[0]| + TotalLength(parts[1..])
  }

  /** Joining the lines of `s` with `'\n'` gives `s` back when `'\n'` is its only line boundary and it does not end with one. */
  lemma {:induction false} JoinSplitLines(s: string)
    requires OnlyNewlineBreaks(s)
    requires s == [] || s[|s| - 1] != '\n'
    ensures Join("\n", SplitLines(s)) == s
    decreases |s|
  {
    if s != [] {
      var i := FirstLineBreak(s);
      if i < |s| {
        NewlineBreakNotLast(s, i);
        var rest := s[i + 1..];
        assert rest[|rest| - 1] == s[|s| - 1];
        TailOnlyNewlineBreaks(s, i + 1);
        SplitLinesAtNewline(s, i);
        JoinSplitLines(rest);
        JoinCons("\n", s[..i], SplitLines(rest));
        calc {
          Join("\n", SplitLines(s));
          Join("\n", [s[..i]] + SplitLines(rest));
          s[..i] + "\n" + Join("\n", SplitLines(rest));
          s[..i] + "\n" + rest;
          { SplitAround(s, i); }
          s;
        }
      }
    }
  }

  lemma SplitAround(s: string, i: nat)
    requires i < |s| && s[i] == '\n'
    ensures s == s[..i] + "\n" + s[i + 1..]
  {
    assert s == s[..i] + [s[i]] + s[i + 1..];
  }

  lemma NewlineBreakNotLast(s: string, i: nat)
    requires OnlyNewlineBreaks(s)
    requires s != [] && s[|s| - 1] != '\n'
    requires i == FirstLineBreak(s) && i < |s|
    ensures i + 1 < |s| && s[i] == '\n'
  {
  }

  lemma SplitLinesAtNewline(s: string, i: nat)
    requires i == FirstLineBreak(s) && i < |s| && s[i] == '\n'
    ensures SplitLines(s) == [s[..i]] + SplitLines(s[i + 1..])
  {
    SplitLinesUnfold(s, i, 1);
  }

  /** One step of `SplitLines` at the first boundary `i`. */
  lemma SplitLinesUnfold(s: string, i: nat, w: nat)
    requires i == FirstLineBreak(s) && i < |s| && w == BreakWidth(s, i)
    ensures SplitLines(s) == [s[..i]] + SplitLines(s[i + w..])
  {
    assert s != [];
  }

  lemma TailOnlyNewlineBreaks(s: string, j: nat)
    requires OnlyNewlineBreaks(s) && j <= |s|
    ensures OnlyNewlineBreaks(s[j..])
  {
    var rest := s[j..];
    forall k | 0 <= k < |rest| ensures IsLineBreak(rest[k]) ==> rest[k] == '\n' {
      assert rest[k] == s[j + k];
    }
  }

  lemma JoinCons(sep: string, head: string, tail: seq<string>)
    requires tail != []
    ensures Join(sep, [head] + tail) == head + sep + Join(sep, tail)
  {
    assert ([head] + tail)[1..] == tail;
  }

  /** A string with no line boundary is a single line (or none, when empty). */
  lemma SplitLinesOfLine(s: string)
    requires NoLineBreak(s)
    ensures SplitLines(s) == if s == [] then [] else [s]
  {
  }

  /** A '\n' after a line with no boundary ends exactly that line. */
  lemma SplitLinesAfterLine(line: string, rest: string)
    requires NoLineBreak(line)
    ensures SplitLines(line + "\n" + rest) == [line] + SplitLines(rest)
  {
    SplitLinesAfterBreak(line, '\n', rest);
  }

  /**
   Any single boundary after a line with no boundary ends exactly that
   line, except a `'\r'` that a `'\n'` follows (see `SplitLinesAfterCRLF`).
   */
  lemma SplitLinesAfterBreak(line: string, c: char, rest: string)
    requires NoLineBreak(line) && IsLineBreak(c)
    requires c == '\r' ==> rest == [] || rest[0] != '\n'
    ensures SplitLines(line + [c] + rest) == [line] + SplitLines(rest)
  {
    var s := line + [c] + rest;
    FirstBreakAfterLine(line, s);
    assert s[..|line|] == line;
    assert s[|line| + 1..] == rest;
  }

  /** `"\r\n"` after a line with no boundary is one boundary: it ends that line and starts no empty one. */
  lemma SplitLinesAfterCRLF(line: string, rest: string)
    requires NoLineBreak(line)
    ensures SplitLines(line + "\r\n" + rest) == [line] + SplitLines(rest)
  {
    var s := line + "\r\n" + rest;
    FirstBreakAfterLine(line, s);
    assert s[|line|] == '\r' && s[|line| + 1] == '\n';
    assert s[..|line|] == line;
    assert s[|line| + 2..] == rest;
  }

  lemma FirstBreakAfterLine(line: string, s: string)
    requires NoLineBreak(line) && |line| < |s| && s[..|line|] == line && IsLineBreak(s[|line|])
    ensures FirstLineBreak(s) == |line|
  {
    assert forall k :: 0 <= k < |line| ==> s[k] == line[k];
  }

  /** A final `'\n'` after a last character that is no boundary starts no further line. */
  lemma {:induction false} SplitLinesDropsFinalNewline(t: string)
    requires t != [] && !IsLineBreak(t[|t| - 1])
    ensures SplitLines(t + "\n") == SplitLines(t)
    decreases |t|
  {
    var i := FirstLineBreak(t);
    if i == |t| {
      SplitLinesAfterLine(t, "");
      assert t + "\n" + "" == t + "\n";
    } else {
      var w := BreakWidth(t, i);
      var tail := t[i + w..];
      assert tail != [] && tail[|tail| - 1] == t[|t| - 1];
      SplitLinesDropsFinalNewline(tail);
      BreakBeforeFinalNewline(t, i, w);
    }
  }

  lemma BreakBeforeFinalNewline(t: string, i: nat, w: nat)
    requires i == FirstLineBreak(t) && i + 1 < |t| && w == BreakWidth(t, i)
    ensures SplitLines(t + "\n") == [t[..i]] + SplitLines(t[i + w..] + "\n")
  {
    var s := t + "\n";
    assert s[..i] == t[..i];
    FirstBreakAfterLine(t[..i], s);
    assert BreakWidth(s, i) == w;
    SplitLinesUnfold(s, i, w);
    assert s[i + w..] == t[i + w..] + "\n";
  }

  /** Index of the first `c` in `s`, or `None` (the test `c in s` and `str.find`). */
  function IndexOf(s: string, c: char): (r: Option<nat>)
    ensures r.None? <==> c !in s
    ensures r.Some? ==> r.value < |s| && s[r.value] == c && c !in s[..r.value]
  {
    if s == [] then None
    else if s[0] == c then Some(0)
    else
      match IndexOf(s[1..], c)
      case None => None
      case Some(j) =>
        assert s[..1 + j] == [s[0]] + s[1..][..j];
        Some(1 + j)
  }

  /** The number of copies of `c` that `s` starts with. */
  function LeadingCount(s: string, c: char): (n: nat)
    ensures n <= |s| && (n < |s| ==> s[n] != c)
  {
    if s != [] && s[0] == c then 1 + LeadingCount(s[1..], c) else 0
  }

  /** `s.lstrip(c)` for a single character `c`. */
  function LStrip(s: string, c: char): (r: string)
    ensures r == [] || r[0] != c
  {
    s[LeadingCount(s, c)..]
  }

  /** `n` copies of `c`. */
  function Repeat(c: char, n: nat): (r: string)
    ensures |r| == n
  {
    if n == 0 then [] else [c] + Repeat(c, n - 1)
  }

  lemma {:induction false} LeadingCountSplit(s: string, c: char)
    ensures s[..LeadingCount(s, c)] == Repeat(c, LeadingCount(s, c))
  {
    if s != [] && s[0] == c {
      LeadingCountSplit(s[1..], c);
      var n := LeadingCount(s[1..], c);
      assert s[..n + 1] == [c] + s[1..][..n];
    }
  }

  /** `LStrip` removes a run of `c` and nothing else. */
  lemma LStripSplit(s: string, c: char)
    ensures s == Repeat(c, |s| - |LStrip(s, c)|) + LStrip(s, c)
  {
    LeadingCountSplit(s, c);
    var n := LeadingCount(s, c);
    assert s == s[..n] + s[n..];
  }

  lemma {:induction false} LeadingCountOfRun(c: char, n: nat, rest: string)
    requires rest == [] || rest[0] != c
    ensures LeadingCount(Repeat(c, n) + rest, c) == n
  {
    if n > 0 {
      LeadingCountOfRun(c, n - 1, rest);
      assert Repeat(c, n) + rest == [c] + (Repeat(c, n - 1) + rest);
      assert (Repeat(c, n) + rest)[1..] == Repeat(c, n - 1) + rest;
    } else {
      assert Repeat(c, n) + rest == rest;
    }
  }

  /** Stripping a run of `c` in front of a rest that does not start with `c` leaves the rest. */
  lemma LStripRun(c: char, n: nat, rest: string)
    requires rest == [] || rest[0] != c
    ensures LStrip(Repeat(c, n) + rest, c) == rest
  {
    LeadingCountOfRun(c, n, rest);
    assert (Repeat(c, n) + rest)[n..] == rest;
  }

  /** `str.lower` on one character. Only ASCII letters are modelled. */
  function LowerChar(c: char): char
  {
    if 'A' <= c <= 'Z' then (c as int + 32) as char else c
  }

  /** `str.lower` (ASCII letters only). */
  function Lower(s: string): (r: string)
    ensures |r| == |s|
    ensures forall k :: 0 <= k < |r| ==> !('A' <= r[k] <= 'Z')
    ensures forall k :: 0 <= k < |s| && !('A' <= s[k] <= 'Z') ==> r[k] == s[k]
    ensures forall k :: 0 <= k < |s| && 'A' <= s[k] <= 'Z' ==> r[k] as int == s[k] as int + 32
  {
    seq(|s|, k requires 0 <= k < |s| => LowerChar(s[k]))
  }

  /** Lower-casing commutes with slicing. */
  lemma LowerSlice(s: string, i: nat, j: nat)
    requires i <= j <= |s|
    ensures Lower(s)[i..j] == Lower(s[i..j])
  {
  }

  /** `sub` occurs in `s` starting at index `i`. */
  ghost predicate OccursAt(sub: string, s: string, i: int)
  {
    0 <= i && i + |sub| <= |s| && s[i..i + |sub|] == sub
  }

  /** Python's substring test `sub in s`. */
  function Contains(s: string, sub: string): (r: bool)
    ensures r <==> exists i :: OccursAt(sub, s, i)
    decreases |s|
  {
    if |sub| > |s| then false
    else if s[..|sub|] == sub then (assert OccursAt(sub, s, 0); true)
    else
      var r := Contains(s[1..], sub);
      ContainsShift(sub, s);
      r
  }

  lemma ContainsShift(sub: string, s: string)
    requires |sub| <= |s| && s[..|sub|] != sub
    ensures (exists i :: OccursAt(sub, s, i)) <==> (exists i :: OccursAt(sub, s[1..], i))
  {
    if exists i :: OccursAt(sub, s, i) {
      var i :| OccursAt(sub, s, i);
      assert i != 0;
      assert s[1..][i - 1..i - 1 + |sub|] == s[i..i + |sub|];
      assert OccursAt(sub, s[1..], i - 1);
    }
    if exists i :: OccursAt(sub, s[1..], i) {
      var i :| OccursAt(sub, s[1..], i);
      assert s[1..][i..i + |sub|] == s[i + 1..i + 1 + |sub|];
      assert OccursAt(sub, s, i + 1);
    }
  }

  /** `s.rfind(c)`: the last index of `c` in `s`, or -1. */
  function RFind(s: string, c: char): (r: int)
    ensures -1 <= r < |s|
    ensures r >= 0 ==> s[r] == c
    ensures forall k :: r < k < |s| ==> s[k] != c
  {
    if s == [] then -1
    else if s[|s| - 1] == c then |s| - 1
    else RFind(s[..|s| - 1], c)
  }

  /** Some character of `s[lo..hi]` is not a dot. */
  predicate HasNonDot(s: string, lo: int, hi: int)
    requires 0 <= lo && hi <= |s|
  {
    exists k :: lo <= k < hi && s[k] != '.'
  }

  /**
   `os.path.splitext` (POSIX): the root and the extension. The extension
   starts at the last dot of the last path component, unless every
   character before that dot in the component is a dot itself, so that
   `".bash"` has no extension.
   */
  function Splitext(p: string): (r: (string, string))
    ensures r.0 + r.1 == p
    ensures r.1 == [] || (r.1[0] == '.' && '.' !in r.1[1..] && '/' !in r.1)
  {
    var sepIndex := RFind(p, '/');
    var dotIndex := RFind(p, '.');
    if dotIndex > sepIndex && HasNonDot(p, sepIndex + 1, dotIndex) then
      assert forall k :: 0 <= k < |p[dotIndex..]| ==> p[dotIndex..][k] == p[dotIndex + k];
      (p[..dotIndex], p[dotIndex..])
    else (p, [])
  }

  /**
   A path whose last component holds a character other than a dot before
   the component's last dot (at `i`; `j` is one such character) splits at
   that dot: `"dir/main.py"` gives `("dir/main", ".py")`.
   */
  lemma ExtensionFromLastDot(p: string, j: nat, i: nat)
    requires j < i < |p| && p[i] == '.' && p[j] != '.'
    requires forall k :: j <= k < |p| ==> p[k] != '/'
    requires forall k :: i < k < |p| ==> p[k] != '.'
    ensures Splitext(p) == (p[..i], p[i..])
  {
    assert RFind(p, '.') == i;
    assert RFind(p, '/') < j;
    assert HasNonDot(p, RFind(p, '/') + 1, i);
  }

  /**
   A path whose last component (starting at `j`, after the last `'/'` if
   any) has dots only at its start, up to `n`, has no extension:
   `".bash"` and `"dir/.bash"` alike.
   */
  lemma {:induction false} LeadingDotsAreNotExtension(p: string, j: nat, n: nat)
    requires j <= n <= |p|
    requires j > 0 ==> p[j - 1] == '/'
    requires forall k :: j <= k < n ==> p[k] == '.'
    requires forall k :: n <= k < |p| ==> p[k] != '.' && p[k] != '/'
    ensures Splitext(p).1 == []
  {
    var sepIndex := RFind(p, '/');
    var dotIndex := RFind(p, '.');
    assert sepIndex == j - 1;
    if dotIndex > sepIndex {
      assert dotIndex < n;
      assert !HasNonDot(p, sepIndex + 1, dotIndex);
    }
  }

  /** A dotfile inside a directory has no extension either. */
  lemma DirDotfileHasNoExtension()
    ensures Splitext("dir/.bash") == ("dir/.bash", "")
  {
    LeadingDotsAreNotExtension("dir/.bash", 4, 5);
  }

  lemma {:induction false} RFindLower(s: string, c: char)
    requires c == '.' || c == '/'
    ensures RFind(Lower(s), c) == RFind(s, c)
    decreases |s|
  {
    if s != [] {
      assert LowerChar(s[|s| - 1]) == c <==> s[|s| - 1] == c;
      LowerSlice(s, 0, |s| - 1);
      assert Lower(s)[..|s| - 1] == Lower(s[..|s| - 1]);
      RFindLower(s[..|s| - 1], c);
    }
  }

  /** Lower-casing a path lower-cases its root and its extension and moves neither. */
  lemma SplitextLower(p: string)
    ensures Splitext(Lower(p)) == (Lower(Splitext(p).0), Lower(Splitext(p).1))
  {
    RFindLower(p, '/');
    RFindLower(p, '.');
    var sepIndex := RFind(p, '/');
    var dotIndex := RFind(p, '.');
    HasNonDotLower(p, sepIndex + 1, dotIndex);
    if dotIndex > sepIndex && HasNonDot(p, sepIndex + 1, dotIndex) {
      assert Splitext(p) == (p[..dotIndex], p[dotIndex..]);
      assert Splitext(Lower(p)) == (Lower(p)[..dotIndex], Lower(p)[dotIndex..]);
      LowerAround(p, dotIndex);
    } else {
      assert Splitext(p) == (p, []);
      assert Splitext(Lower(p)) == (Lower(p), []);
      assert Lower([]) == [];
    }
  }

  lemma LowerAround(p: string, i: nat)
    requires i <= |p|
    ensures Lower(p)[..i] == Lower(p[..i]) && Lower(p)[i..] == Lower(p[i..])
  {
    LowerSlice(p, 0, i);
    LowerSlice(p, i, |p|);
    assert Lower(p)[i..] == Lower(p)[i..|p|];
    assert p[i..] == p[i..|p|];
  }

  lemma HasNonDotLower(p: string, lo: int, hi: int)
    requires 0 <= lo && hi <= |p|
    ensures HasNonDot(Lower(p), lo, hi) == HasNonDot(p, lo, hi)
  {
    assert forall k :: 0 <= k < |p| ==> (Lower(p)[k] != '.' <==> p[k] != '.');
  }

  /** `s.count(c)` for a single character `c`. */
  function Count(s: string, c: char): (n: nat)
    ensures n <= |s|
    ensures n == multiset(s)[c]
  {
    if s == [] then 0
    else
      assert s == [s[0]] + s[1..];
      (if s[0] == c then 1 else 0) + Count(s[1..], c)
  }

  /** A character is counted zero times exactly when it does not occur. */
  lemma {:induction false} CountZeroIff(s: string, c: char)
    ensures Count(s, c) == 0 <==> c !in s
  {
    if s != [] {
      CountZeroIff(s[1..], c);
      assert s == [s[0]] + s[1..];
    }
  }
}
