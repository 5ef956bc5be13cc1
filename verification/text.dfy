/**
 * String primitives used by the backend: whitespace trimming as done by
 * Python's `str.strip()`, splitting at the first separator as done by
 * `str.partition`, and splitting text into lines as done by `str.splitlines`.
 *
 * Whitespace is restricted to ASCII and lines end only at '\n'.
 */
module Text {

  /** ASCII whitespace in Python's sense: '\t' '\n' '\x0b' '\x0c' '\r',
      the separators '\x1c'..'\x1f', and ' '. */
  predicate IsSpace(c: char) {
    9 <= c as int <= 13 || 28 <= c as int <= 32
  }

  predicate AllSpace(s: string) {
    forall i :: 0 <= i < |s| ==> IsSpace(s[i])
  }

  /** Neither end of `s` is whitespace. */
  predicate Trimmed(s: string) {
    s == [] || (!IsSpace(s[0]) && !IsSpace(s[|s| - 1]))
  }

  lemma AllSpaceAppend(a: string, b: string)
    requires AllSpace(a) && AllSpace(b)
    ensures AllSpace(a + b)
  {
    assert forall i :: 0 <= i < |a + b| ==> (a + b)[i] == if i < |a| then a[i] else b[i - |a|];
  }

  /** The first index at or after `i` whose character is not whitespace,
      or `|s|` if there is none. */
  function SkipSpaces(s: string, i: nat): (k: nat)
    requires i <= |s|
    ensures i <= k <= |s|
    ensures forall j :: i <= j < k ==> IsSpace(s[j])
    ensures k < |s| ==> !IsSpace(s[k])
    decreases |s| - i
  {
    if i < |s| && IsSpace(s[i]) then SkipSpaces(s, i + 1) else i
  }

  /** Walking back from `j`, no further than `lo`: the end of the last
      character before `j` that is not whitespace, or `lo` if there is none. */
  function SkipSpacesBack(s: string, lo: nat, j: nat): (k: nat)
    requires lo <= j <= |s|
    ensures lo <= k <= j
    ensures forall m :: k <= m < j ==> IsSpace(s[m])
    ensures k > lo ==> !IsSpace(s[k - 1])
    decreases j
  {
    if j > lo && IsSpace(s[j - 1]) then SkipSpacesBack(s, lo, j - 1) else j
  }

  lemma SkipSpacesAt(s: string, i: nat, k: nat)
    requires i <= k <= |s|
    requires forall j :: i <= j < k ==> IsSpace(s[j])
    requires k < |s| ==> !IsSpace(s[k])
    ensures SkipSpaces(s, i) == k
  {
  }

  lemma SkipSpacesBackAt(s: string, lo: nat, j: nat, k: nat)
    requires lo <= k <= j <= |s|
    requires forall m :: k <= m < j ==> IsSpace(s[m])
    requires k > lo ==> !IsSpace(s[k - 1])
    ensures SkipSpacesBack(s, lo, j) == k
  {
  }

  /** Python's `str.strip()` without arguments. */
  function Trim(s: string): (r: string)
    ensures Trimmed(r)
  {
    var a := SkipSpaces(s, 0);
    var b := SkipSpacesBack(s, a, |s|);
    s[a..b]
  }

  /** `Trim(s)` is a slice of `s` whose margins `s[..i]` and
      `s[i + |Trim(s)|..]` are whitespace only. */
  lemma TrimMargins(s: string) returns (i: nat)
    ensures i + |Trim(s)| <= |s| && s[i..i + |Trim(s)|] == Trim(s)
    ensures AllSpace(s[..i]) && AllSpace(s[i + |Trim(s)|..])
  {
    i := SkipSpaces(s, 0);
    var b := SkipSpacesBack(s, i, |s|);
    assert Trim(s) == s[i..b];
    assert forall j :: 0 <= j < i ==> s[..i][j] == s[j];
    assert forall m :: 0 <= m < |s| - b ==> s[b..][m] == s[b + m];
  }

  /** Trimming is determined by its defining property: a trimmed middle
      between two whitespace margins is what `Trim` returns. */
  lemma TrimUnique(a: string, r: string, b: string)
    requires AllSpace(a) && AllSpace(b) && Trimmed(r)
    ensures Trim(a + r + b) == r
  {
    var s := a + r + b;
    if r == [] {
      AllSpaceAppend(a, b);
      assert s == a + b;
      SkipSpacesAt(s, 0, |s|);
    } else {
      var e := |a| + |r|;
      assert forall j :: 0 <= j < |a| ==> s[j] == a[j];
      assert s[|a|] == r[0];
      SkipSpacesAt(s, 0, |a|);
      assert forall m :: e <= m < |s| ==> s[m] == b[m - e];
      assert s[e - 1] == r[|r| - 1];
      SkipSpacesBackAt(s, |a|, |s|, e);
      assert s[|a|..e] == r;
    }
  }

  lemma SliceAround(s: string, r: string, i: nat)
    requires i + |r| <= |s| && s[i..i + |r|] == r
    ensures s == s[..i] + r + s[i + |r|..]
  {
    assert s == s[..i] + s[i..];
    assert s[i..] == s[i..i + |r|] + s[i + |r|..];
  }

  lemma TrimAround(w: string, a: string, r: string, b: string, w': string)
    requires AllSpace(w) && AllSpace(a) && AllSpace(b) && AllSpace(w') && Trimmed(r)
    ensures Trim(w + (a + r + b) + w') == r
  {
    AllSpaceAppend(w, a);
    AllSpaceAppend(b, w');
    assert w + (a + r + b) + w' == (w + a) + r + (b + w');
    TrimUnique(w + a, r, b + w');
  }

  /** Whitespace added around a string disappears when it is trimmed. */
  lemma TrimPadding(w: string, s: string, w': string)
    requires AllSpace(w) && AllSpace(w')
    ensures Trim(w + s + w') == Trim(s)
  {
    var r := Trim(s);
    var i := TrimMargins(s);
    SliceAround(s, r, i);
    TrimAround(w, s[..i], r, s[i + |r|..], w');
  }

  /** A string trims to nothing exactly when it is all whitespace. */
  lemma TrimEmpty(s: string)
    ensures Trim(s) == [] <==> AllSpace(s)
  {
    var i := SkipSpaces(s, 0);
    var j := SkipSpacesBack(s, i, |s|);
    assert Trim(s) == s[i..j];
    if AllSpace(s) {
      SkipSpacesAt(s, 0, |s|);
    }
    if i == j {
      assert i == |s|;
    }
  }

  /** Trimming only removes characters. */
  lemma TrimSubset(s: string, c: char)
    requires c in Trim(s)
    ensures c in s
  {
    var i := TrimMargins(s);
    var k :| 0 <= k < |Trim(s)| && Trim(s)[k] == c;
    assert s[i + k] == c;
  }

  /** Trimming a trimmed string changes nothing. */
  lemma TrimIdempotent(s: string)
    requires Trimmed(s)
    ensures Trim(s) == s
  {
    TrimUnique([], s, []);
    assert [] + s + [] == s;
  }

  /** `sub` occurs somewhere in `s`. */
  ghost predicate Contains(s: string, sub: string) {
    exists i :: 0 <= i <= |s| && sub <= s[i..]
  }

  lemma ContainsMiddle(a: string, x: string, b: string)
    ensures Contains(a + (x + b), x)
  {
    assert (a + (x + b))[|a|..] == x + b;
  }

  /** The three parts of Python's `str.partition(sep)`: `found` is false
      (and the middle part empty) when `sep` does not occur. */
  datatype Partitioned = Partitioned(before: string, found: bool, after: string)

  /** The first index at or after `i` holding `c`, or `|s|` if none does. */
  function IndexOf(s: string, c: char, i: nat): (k: nat)
    requires i <= |s|
    ensures i <= k <= |s|
    ensures forall j :: i <= j < k ==> s[j] != c
    ensures k < |s| ==> s[k] == c
    decreases |s| - i
  {
    if i < |s| && s[i] != c then IndexOf(s, c, i + 1) else i
  }

  /** Splits `s` at the first occurrence of `sep`. */
  function Partition(s: string, sep: char): (p: Partitioned)
    ensures sep !in p.before
    ensures p.found <==> sep in s
    ensures p.found ==> s == p.before + [sep] + p.after
    ensures !p.found ==> p == Partitioned(s, false, [])
  {
    var k := IndexOf(s, sep, 0);
    if k == |s| then
      Partitioned(s, false, [])
    else
      assert s == s[..k] + [sep] + s[k + 1..];
      assert forall j :: 0 <= j < k ==> s[..k][j] == s[j];
      Partitioned(s[..k], true, s[k + 1..])
  }

  /** The split happens at the FIRST separator: everything after it,
      further separators included, ends up in `after`. */
  lemma PartitionAtFirst(a: string, sep: char, b: string)
    requires sep !in a
    ensures Partition(a + [sep] + b, sep) == Partitioned(a, true, b)
  {
    var s := a + [sep] + b;
    assert forall j :: 0 <= j < |a| ==> s[j] == a[j];
    assert s[|a|] == sep;
    assert IndexOf(s, sep, 0) == |a|;
    assert s[..|a|] == a && s[|a| + 1..] == b;
  }

  /** Python's `str.splitlines()` with '\n' as the only line boundary: no
      line holds a '\n', a final '\n' does not start an empty last line,
      and the empty string has no lines at all. */
  function SplitLines(s: string): (lines: seq<string>)
    ensures forall i :: 0 <= i < |lines| ==> '\n' !in lines[i]
    ensures lines == [] <==> s == []
    decreases |s|
  {
    if s == [] then
      []
    else
      var p := Partition(s, '\n');
      assert |p.after| < |s| by {
        if p.found { assert |s| == |p.before| + 1 + |p.after|; }
      }
      [p.before] + SplitLines(p.after)
  }

  /** Joins lines with '\n' between consecutive lines. */
  function JoinLines(lines: seq<string>): string
  {
    if lines == [] then []
    else if |lines| == 1 then lines[0]
    else lines[0] + "\n" + JoinLines(lines[1..])
  }

  lemma JoinLinesCons(x: string, rest: seq<string>)
    requires rest != []
    ensures JoinLines([x] + rest) == x + "\n" + JoinLines(rest)
  {
    assert ([x] + rest)[1..] == rest;
  }

  /** The text ends in a line boundary. */
  predicate EndsInNewline(s: string) {
    s != [] && s[|s| - 1] == '\n'
  }

  /** One step of `SplitLinesJoin`: a line and a boundary in front of a
      joined remainder keep the remainder's relation to its text. */
  lemma JoinAfterBoundary(x: string, j: string, a: string)
    requires a != []
    requires EndsInNewline(a) ==> j + "\n" == a
    requires !EndsInNewline(a) ==> j == a
    ensures EndsInNewline(x + "\n" + a) ==> x + "\n" + j + "\n" == x + "\n" + a
    ensures !EndsInNewline(x + "\n" + a) ==> x + "\n" + j == x + "\n" + a
  {
    var s := x + "\n" + a;
    assert s[|s| - 1] == a[|a| - 1];
    if EndsInNewline(a) {
      assert x + "\n" + j + "\n" == x + "\n" + (j + "\n");
    }
  }

  /** Splitting loses nothing: re-joining the lines gives back the text,
      and a final '\n' is the only thing dropped, since it does not start
      an empty last line. */
  lemma {:induction false} SplitLinesJoin(s: string)
    ensures EndsInNewline(s) ==> JoinLines(SplitLines(s)) + "\n" == s
    ensures !EndsInNewline(s) ==> JoinLines(SplitLines(s)) == s
    decreases |s|
  {
    if s != [] {
      var p := Partition(s, '\n');
      var lines := SplitLines(s);
      assert lines == [p.before] + SplitLines(p.after);
      if !p.found {
        assert lines == [s];
        assert s[|s| - 1] in s;
      } else if p.after == [] {
        assert lines == [p.before];
        assert s == p.before + "\n";
      } else {
        var rest := SplitLines(p.after);
        SplitLinesJoin(p.after);
        JoinLinesCons(p.before, rest);
        JoinAfterBoundary(p.before, JoinLines(rest), p.after);
      }
    }
  }

  /** Joining lines free of '\n' and splitting again recovers them, as long
      as the last line is not empty. */
  lemma {:induction false} JoinLinesSplit(lines: seq<string>)
    requires forall i :: 0 <= i < |lines| ==> '\n' !in lines[i]
    requires lines != [] ==> lines[|lines| - 1] != []
    ensures SplitLines(JoinLines(lines)) == lines
    decreases |lines|
  {
    if |lines| == 1 {
      var x := lines[0];
      assert JoinLines(lines) == x;
      assert Partition(x, '\n') == Partitioned(x, false, []);
      assert SplitLines(x) == [x] + SplitLines([]);
    } else if |lines| > 1 {
      var x, rest := lines[0], lines[1..];
      assert lines == [x] + rest;
      assert forall i :: 0 <= i < |rest| ==> rest[i] == lines[i + 1];
      JoinLinesSplit(rest);
      var j := JoinLines(rest);
      JoinLinesCons(x, rest);
      PartitionAtFirst(x, '\n', j);
      var s := x + ['\n'] + j;
      assert JoinLines(lines) == s;
      assert SplitLines(s) == [x] + SplitLines(j);
    }
  }

}
