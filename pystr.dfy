/** Python `str` operations that lea's view model relies on, with CPython's
    semantics: whitespace and line boundaries as `str.isspace` and
    `str.splitlines` define them, `strip`, `find`, `rfind`, `split` and
    `join`. Strings are sequences of code points. */
module PyStr {

  /** The code points for which CPython's `str.isspace()` holds. */
  const Whitespace: set<char> := {
    '\t', '\n', '\U{0b}', '\U{0c}', '\r', '\U{1c}', '\U{1d}', '\U{1e}', '\U{1f}', ' ',
    '\U{85}', '\U{a0}', '\U{1680}',
    '\U{2000}', '\U{2001}', '\U{2002}', '\U{2003}', '\U{2004}', '\U{2005}',
    '\U{2006}', '\U{2007}', '\U{2008}', '\U{2009}', '\U{200a}',
    '\U{2028}', '\U{2029}', '\U{202f}', '\U{205f}', '\U{3000}'
  }

  /** The line boundaries of CPython's `str.splitlines()` (`\r\n` is handled
      there as one boundary). */
  const LineBreaks: set<char> := {
    '\n', '\r', '\U{0b}', '\U{0c}', '\U{1c}', '\U{1d}', '\U{1e}',
    '\U{85}', '\U{2028}', '\U{2029}'
  }

  /** `c.isspace()` */
  predicate IsSpace(c: char) {
    c in Whitespace
  }

  /** `c` ends a line for `str.splitlines()`. */
  predicate IsLineBreak(c: char) {
    c in LineBreaks
  }

  /** `s.startswith(prefix)` */
  predicate StartsWith(s: string, prefix: string) {
    prefix <= s
  }

  /** `s.endswith(suffix)` */
  predicate EndsWith(s: string, suffix: string) {
    |suffix| <= |s| && s[|s| - |suffix|..] == suffix
  }

  /** Where `s.rstrip(chars)` cuts `s`: the start of its trailing run of `chars`. */
  function RStripEnd(s: string, chars: set<char>): (n: nat)
    ensures n <= |s|
    ensures forall i :: n <= i < |s| ==> s[i] in chars
    ensures n == 0 || s[n - 1] !in chars
  {
    if s != [] && s[|s| - 1] in chars then RStripEnd(s[..|s| - 1], chars) else |s|
  }

  /** Where `s.lstrip(chars)` cuts `s`: the end of its leading run of `chars`. */
  function LStripStart(s: string, chars: set<char>): (n: nat)
    ensures n <= |s|
    ensures forall i :: 0 <= i < n ==> s[i] in chars
    ensures n == |s| || s[n] !in chars
  {
    if s != [] && s[0] in chars then 1 + LStripStart(s[1..], chars) else 0
  }

  /** `s.rstrip(chars)`: the longest prefix of `s` that leaves only `chars`
      behind; it does not end with one of `chars`. */
  function RStripChars(s: string, chars: set<char>): (r: string)
    ensures r <= s
    ensures forall i :: |r| <= i < |s| ==> s[i] in chars
    ensures r == [] || r[|r| - 1] !in chars
  {
    s[..RStripEnd(s, chars)]
  }

  /** `s.lstrip(chars)`: the longest suffix of `s` that leaves only `chars`
      before it; it does not start with one of `chars`. */
  function LStripChars(s: string, chars: set<char>): (r: string)
    ensures |r| <= |s| && r == s[|s| - |r|..]
    ensures forall i :: 0 <= i < |s| - |r| ==> s[i] in chars
    ensures r == [] || r[0] !in chars
  {
    s[LStripStart(s, chars)..]
  }

  /** `s.rstrip()`: the longest prefix of `s` that leaves only whitespace
      behind. */
  function RStrip(s: string): (r: string)
    ensures r <= s
    ensures forall i :: |r| <= i < |s| ==> IsSpace(s[i])
    ensures r == [] || !IsSpace(r[|r| - 1])
  {
    RStripChars(s, Whitespace)
  }

  /** `s.strip()`: with whitespace on neither end, empty exactly when `s` is
      all whitespace; `StripSlice` states which slice of `s` it is. */
  function Strip(s: string): (r: string)
    ensures r == [] || (!IsSpace(r[0]) && !IsSpace(r[|r| - 1]))
    ensures r == [] <==> forall i :: 0 <= i < |s| ==> IsSpace(s[i])
    ensures forall i :: 0 <= i < |r| ==> r[i] in s
  {
    var b := RStripEnd(s, Whitespace);
    var a := LStripStart(s[..b], Whitespace);
    assert forall i :: 0 <= i < a ==> s[i] == s[..b][i];
    assert forall i :: 0 <= i < b - a ==> s[a..b][i] == s[a + i];
    s[a..b]
  }

  /** `s.strip()` is the slice of `s` that ends where `s.rstrip()` does, so
      that only whitespace follows it, and that only whitespace precedes. */
  lemma StripSlice(s: string)
    ensures var r, e := Strip(s), |RStrip(s)|;
      && |r| <= e && r == s[e - |r|..e]
      && (forall i :: 0 <= i < e - |r| ==> IsSpace(s[i]))
      && (forall i :: e <= i < |s| ==> IsSpace(s[i]))
  {
    var b := RStripEnd(s, Whitespace);
    var a := LStripStart(s[..b], Whitespace);
    assert |RStrip(s)| == b;
    assert forall i :: 0 <= i < a ==> s[i] == s[..b][i];
  }

  /** `s.rfind(c)`: the last index holding `c`, or -1. */
  function RFind(s: string, c: char): (i: int)
    ensures -1 <= i < |s|
    ensures 0 <= i ==> s[i] == c
    ensures forall j :: i < j < |s| ==> s[j] != c
  {
    if s == [] then -1
    else if s[|s| - 1] == c then |s| - 1
    else RFind(s[..|s| - 1], c)
  }

  /** `sub` occurs in `s` starting at index `i`. */
  predicate OccursAt(s: string, sub: string, i: int) {
    0 <= i && i + |sub| <= |s| && s[i..i + |sub|] == sub
  }

  /** `s.find(sub, start)`: the first index at or after `start` where `sub`
      occurs, or -1. */
  function FindFrom(s: string, sub: string, start: nat): (i: int)
    ensures i == -1 || (start <= i && OccursAt(s, sub, i))
    ensures forall j :: start <= j && (i == -1 || j < i) ==> !OccursAt(s, sub, j)
    decreases |s| - start
  {
    if start + |sub| > |s| then -1
    else if OccursAt(s, sub, start) then start
    else FindFrom(s, sub, start + 1)
  }

  /** `s.find(sub)` */
  function Find(s: string, sub: string): int {
    FindFrom(s, sub, 0)
  }

  /** `sub in s`: `sub` occurs somewhere in `s`. */
  predicate Contains(s: string, sub: string): (b: bool)
    ensures b ==> OccursAt(s, sub, Find(s, sub))
    ensures !b ==> forall i :: !OccursAt(s, sub, i)
  {
    Find(s, sub) >= 0
  }

  /** `k` is where the first occurrence of `sep` at or after `from` starts, or
      `|s|` when there is none: the end of the piece of `s` that starts at `from`. */
  predicate NextCut(s: string, sep: string, from: int, k: int) {
    && 0 <= from <= k <= |s|
    && (k == |s| || OccursAt(s, sep, k))
    && forall j :: from <= j < k ==> !OccursAt(s, sep, j)
  }

  /** What `s.find(sep, from)` returns, described by the cut point. */
  lemma {:induction false} FindAtCut(s: string, sep: string, from: nat, k: int)
    requires sep != [] && NextCut(s, sep, from, k)
    ensures k < |s| ==> FindFrom(s, sep, from) == k
    ensures k == |s| ==> FindFrom(s, sep, from) == -1
  {
    if k < |s| {
      assert OccursAt(s, sep, k);
    }
  }

  /** The pieces of `s[start..].split(sep)`, found by scanning `s` from `start`
      for one occurrence of `sep` after another, as CPython does. */
  function SplitFrom(s: string, sep: string, start: nat): (parts: seq<string>)
    requires sep != [] && start <= |s|
    ensures |parts| >= 1
    decreases |s| - start
  {
    var i := FindFrom(s, sep, start);
    if i < 0 then [s[start..]] else [s[start..i]] + SplitFrom(s, sep, i + |sep|)
  }

  /** `s.split(sep)` for a non-empty separator. */
  function Split(s: string, sep: string): (parts: seq<string>)
    requires sep != []
    ensures |parts| >= 1
    ensures |parts| == 1 <==> !Contains(s, sep)
  {
    SplitFrom(s, sep, 0)
  }

  /** `sep.join(parts)` */
  function Join(parts: seq<string>, sep: string): (r: string)
    ensures parts == [] ==> r == []
    ensures |parts| == 1 ==> r == parts[0]
  {
    if parts == [] then ""
    else if |parts| == 1 then parts[0]
    else parts[0] + sep + Join(parts[1..], sep)
  }

  /** The first piece of `s.split(sep)` ends at the first cut. */
  lemma {:induction false} SplitHead(s: string, sep: string, k: int)
    requires sep != [] && NextCut(s, sep, 0, k)
    ensures Split(s, sep)[0] == s[..k]
  {
    FindAtCut(s, sep, 0, k);
    assert s[0..k] == s[..k];
    assert s[0..] == s[..k] || k < |s|;
  }

  /** `s.split(sep)[1]`: when `sep` first occurs at `i`, the second piece runs from
      just after that occurrence to the next one, or to the end of `s`. */
  lemma {:induction false} SplitSecond(s: string, sep: string, i: int, k: int)
    requires sep != [] && NextCut(s, sep, 0, i) && i < |s|
    requires NextCut(s, sep, i + |sep|, k)
    ensures |Split(s, sep)| >= 2 && Split(s, sep)[1] == s[i + |sep|..k]
  {
    FindAtCut(s, sep, 0, i);
    FindAtCut(s, sep, i + |sep|, k);
    assert Split(s, sep) == [s[0..i]] + SplitFrom(s, sep, i + |sep|);
  }

  /** `sep.join` of a list of two or more pieces. */
  lemma {:induction false} JoinCons(head: string, tail: seq<string>, sep: string)
    requires |tail| >= 1
    ensures Join([head] + tail, sep) == head + sep + Join(tail, sep)
  {
    assert ([head] + tail)[1..] == tail;
  }

  /** A join begins with its first piece. */
  lemma JoinHead(parts: seq<string>, sep: string)
    requires parts != []
    ensures parts[0] <= Join(parts, sep)
  {
    if |parts| >= 2 {
      assert Join(parts, sep) == parts[0] + (sep + Join(parts[1..], sep));
    }
  }

  /** A string is the piece before an occurrence of `sep`, `sep`, and the rest. */
  lemma GlueAt(s: string, sep: string, start: nat, i: nat)
    requires start <= i && OccursAt(s, sep, i)
    ensures s[start..] == s[start..i] + sep + s[i + |sep|..]
  {
    var a, m, b := s[start..i], s[i..i + |sep|], s[i + |sep|..];
    assert s[start..] == a + m + b;
  }

  /** A join of a piece and further pieces whose join is known. */
  lemma JoinOfCons(parts: seq<string>, head: string, tail: seq<string>, sep: string, rest: string, whole: string)
    requires parts == [head] + tail && tail != []
    requires Join(tail, sep) == rest && whole == head + sep + rest
    ensures Join(parts, sep) == whole
  {
    JoinCons(head, tail, sep);
  }

  /** Joining the pieces of `s[start..].split(sep)` gives back `s[start..]`. */
  lemma {:induction false} JoinSplitFrom(s: string, sep: string, start: nat)
    requires sep != [] && start <= |s|
    ensures Join(SplitFrom(s, sep, start), sep) == s[start..]
    decreases |s| - start
  {
    var i := FindFrom(s, sep, start);
    if 0 <= i {
      var tail := SplitFrom(s, sep, i + |sep|);
      assert SplitFrom(s, sep, start) == [s[start..i]] + tail;
      JoinSplitFrom(s, sep, i + |sep|);
      var head, rest := s[start..i], s[i + |sep|..];
      JoinOfCons(SplitFrom(s, sep, start), head, tail, sep, rest, head + sep + rest);
      GlueAt(s, sep, start, i);
    } else {
      assert SplitFrom(s, sep, start) == [s[start..]];
    }
  }

  /** Joining the pieces of a split gives back the string. */
  lemma {:induction false} JoinSplit(s: string, sep: string)
    requires sep != []
    ensures Join(Split(s, sep), sep) == s
  {
    JoinSplitFrom(s, sep, 0);
    assert s[0..] == s;
  }

  /** A piece that may appear before a `__` separator without creating a
      spurious one: no `__` inside and no `_` at the end. */
  predicate CleanPart(p: string) {
    !Contains(p, "__") && (p == [] || p[|p| - 1] != '_')
  }

  /** When `s` continues at `start` with a clean piece `p` and then `__`, the
      piece starting at `start` ends right after `p`. */
  lemma {:induction false} DunderAfterClean(s: string, start: nat, p: string)
    requires CleanPart(p)
    requires start + |p| + 2 <= |s|
    requires s[start..start + |p|] == p && s[start + |p|..start + |p| + 2] == "__"
    ensures NextCut(s, "__", start, start + |p|)
  {
    var e := start + |p|;
    forall j | start <= j < e ensures !OccursAt(s, "__", j) {
      var d := j - start;
      if d + 2 <= |p| {
        assert s[j..j + 2] == p[d..d + 2] by {
          assert s[j] == p[d] && s[j + 1] == p[d + 1];
        }
        assert FindFrom(p, "__", 0) < 0;
        assert !OccursAt(p, "__", d);
      } else {
        assert s[j] == p[|p| - 1];
        assert s[j..j + 2][0] == s[j];
      }
    }
  }

  /** When `s` ends, from `start` on, with a piece holding no `__`, that piece
      runs to the end of `s`. */
  lemma {:induction false} NoDunderToEnd(s: string, start: nat, p: string)
    requires start <= |s| && s[start..] == p && !Contains(p, "__")
    ensures NextCut(s, "__", start, |s|)
  {
    forall j | start <= j < |s| ensures !OccursAt(s, "__", j) {
      var d := j - start;
      if j + 2 <= |s| {
        assert s[j..j + 2] == p[d..d + 2] by {
          assert s[j] == p[d] && s[j + 1] == p[d + 1];
        }
        assert FindFrom(p, "__", 0) < 0;
        assert !OccursAt(p, "__", d);
      }
    }
  }

  /** `(a + "__" + b).split("__")` begins with `a` and `b` when `a` is a clean
      piece and `b` holds no `__`. */
  lemma {:induction false} SplitDunderPair(a: string, b: string)
    requires CleanPart(a) && !Contains(b, "__")
    ensures |Split(a + "__" + b, "__")| == 2
    ensures Split(a + "__" + b, "__")[0] == a && Split(a + "__" + b, "__")[1] == b
  {
    var s := a + "__" + b;
    assert s[0..|a|] == a && s[|a|..|a| + 2] == "__";
    DunderAfterClean(s, 0, a);
    assert s[..|a|] == a;
    assert s[|a| + 2..] == b;
    NoDunderToEnd(s, |a| + 2, b);
    SplitHead(s, "__", |a|);
    SplitSecond(s, "__", |a|, |s|);
    FindAtCut(s, "__", 0, |a|);
    FindAtCut(s, "__", |a| + 2, |s|);
    assert Split(s, "__") == [s[0..|a|]] + SplitFrom(s, "__", |a| + 2);
    assert SplitFrom(s, "__", |a| + 2) == [s[|a| + 2..]];
  }

  /** `(a + "__" + (b + "__" + c)).split("__")` begins with `a` and `b` when
      both are clean pieces, whatever `c` is. */
  lemma {:induction false} SplitDunderTriple(a: string, b: string, c: string)
    requires CleanPart(a) && CleanPart(b)
    ensures |Split(a + "__" + (b + "__" + c), "__")| >= 2
    ensures Split(a + "__" + (b + "__" + c), "__")[0] == a
    ensures Split(a + "__" + (b + "__" + c), "__")[1] == b
  {
    var s := a + "__" + (b + "__" + c);
    var i, k := |a|, |a| + 2 + |b|;
    assert NextCut(s, "__", 0, i) by {
      assert s[0..i] == a && s[i..i + 2] == "__";
      DunderAfterClean(s, 0, a);
    }
    assert NextCut(s, "__", i + 2, k) by {
      assert s[i + 2..k] == b && s[k..k + 2] == "__";
      DunderAfterClean(s, i + 2, b);
    }
    assert s[..i] == a && s[i + 2..k] == b;
    SplitFirstTwo(s, "__", i, k);
  }

  /** The first two pieces of a split, given where the first two cuts are. */
  lemma SplitFirstTwo(s: string, sep: string, i: int, k: int)
    requires sep != [] && NextCut(s, sep, 0, i) && i < |s| && NextCut(s, sep, i + |sep|, k)
    ensures |Split(s, sep)| >= 2 && Split(s, sep)[0] == s[..i] && Split(s, sep)[1] == s[i + |sep|..k]
  {
    SplitHead(s, sep, i);
    SplitSecond(s, sep, i, k);
  }

  /** Index of the first line boundary in `s`, or `|s|`. */
  function LineEnd(s: string): (i: nat)
    ensures i <= |s|
    ensures i < |s| ==> IsLineBreak(s[i])
    ensures forall j :: 0 <= j < i ==> !IsLineBreak(s[j])
  {
    if s == [] || IsLineBreak(s[0]) then 0 else 1 + LineEnd(s[1..])
  }

  /** `s.splitlines()`: the lines of `s` without their boundaries; `\r\n` is one
      boundary and a final boundary does not open an empty last line. */
  function SplitLines(s: string): (lines: seq<string>)
    ensures lines == [] <==> s == []
    ensures s != [] ==> lines[0] == s[..LineEnd(s)]
    ensures forall k, j :: 0 <= k < |lines| && 0 <= j < |lines[k]| ==> !IsLineBreak(lines[k][j])
    decreases |s|
  {
    if s == [] then []
    else
      var i := LineEnd(s);
      if i == |s| then [s]
      else
        var width := if s[i] == '\r' && i + 1 < |s| && s[i + 1] == '\n' then 2 else 1;
        [s[..i]] + SplitLines(s[i + width..])
  }

  /** A non-empty string without line boundaries is a single line. */
  lemma SplitLinesSingle(s: string)
    requires s != [] && forall j :: 0 <= j < |s| ==> !IsLineBreak(s[j])
    ensures SplitLines(s) == [s]
  {
    assert LineEnd(s) == |s|;
  }

  /** A line, a boundary other than the `\r` of a `\r\n`, and what follows. */
  lemma SplitLinesBreak(line: string, b: char, t: string)
    requires forall j :: 0 <= j < |line| ==> !IsLineBreak(line[j])
    requires IsLineBreak(b) && !(b == '\r' && t != [] && t[0] == '\n')
    ensures SplitLines(line + [b] + t) == [line] + SplitLines(t)
  {
    var s := line + [b] + t;
    assert s[|line|] == b;
    assert LineEnd(s) == |line|;
    assert s[..|line|] == line && s[|line| + 1..] == t;
  }

  /** A line, a `\r\n`, and what follows. */
  lemma SplitLinesCrLf(line: string, t: string)
    requires forall j :: 0 <= j < |line| ==> !IsLineBreak(line[j])
    ensures SplitLines(line + "\r\n" + t) == [line] + SplitLines(t)
  {
    var s := line + "\r\n" + t;
    assert s[|line|] == '\r' && s[|line| + 1] == '\n';
    assert LineEnd(s) == |line|;
    assert s[..|line|] == line && s[|line| + 2..] == t;
  }
}
