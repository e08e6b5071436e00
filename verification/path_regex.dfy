/**
 * The regular expression `getOutFilePath` matches an input path against,
 * reduced to the two capture groups the mapper reads: group 1, the folder
 * (everything up to and including a directory separator), and group 3, the
 * file name without its extension. The expression is not anchored and has no
 * `s` flag, so `.` does not match a line terminator and the match starts at
 * the first position from which the expression can succeed.
 */
module PathRegex {
  import opened Wrappers

  predicate IsSeparator(c: char) { c == '/' || c == '\\' }

  predicate IsDot(c: char) { c == '.' }

  /** The characters JavaScript's `.` does not match. */
  predicate IsLineTerminator(c: char) {
    c == '\n' || c == '\r' || c == '\U{2028}' || c == '\U{2029}'
  }

  predicate NoLineTerminators(s: string) {
    forall j :: 0 <= j < |s| ==> !IsLineTerminator(s[j])
  }

  /** The leftmost index of `s` whose character satisfies `p`. */
  function FirstIndex(s: string, p: char -> bool): (r: Option<nat>)
    ensures r.Some? ==> r.value < |s| && p(s[r.value])
    ensures r.Some? ==> forall j :: 0 <= j < r.value ==> !p(s[j])
    ensures r.None? ==> forall j :: 0 <= j < |s| ==> !p(s[j])
  {
    if |s| == 0 then None
    else if p(s[0]) then Some(0)
    else match FirstIndex(s[1..], p)
      case None => None
      case Some(i) => Some(i + 1)
  }

  /** The rightmost index of `s` whose character satisfies `p`. */
  function LastIndex(s: string, p: char -> bool): (r: Option<nat>)
    ensures r.Some? ==> r.value < |s| && p(s[r.value])
    ensures r.Some? ==> forall j :: r.value < j < |s| ==> !p(s[j])
    ensures r.None? ==> forall j :: 0 <= j < |s| ==> !p(s[j])
  {
    if |s| == 0 then None
    else if p(s[|s| - 1]) then Some(|s| - 1)
    else LastIndex(s[..|s| - 1], p)
  }

  /** The start of the line of `s` that holds index `i`. */
  function LineStart(s: string, i: nat): (b: nat)
    requires i <= |s|
    ensures b <= i && (b == 0 || IsLineTerminator(s[b - 1]))
    ensures forall j :: b <= j < i ==> !IsLineTerminator(s[j])
  {
    match LastIndex(s[..i], IsLineTerminator)
    case None => 0
    case Some(t) => t + 1
  }

  /** The end (exclusive) of the line of `s` that holds index `i`. */
  function LineEnd(s: string, i: nat): (e: nat)
    requires i <= |s|
    ensures i <= e <= |s| && (e == |s| || IsLineTerminator(s[e]))
    ensures forall j :: i <= j < e ==> !IsLineTerminator(s[j])
  {
    match FirstIndex(s[i..], IsLineTerminator)
    case None => |s|
    case Some(t) => i + t
  }

  /** Capture group 1 (absent when it did not take part) and capture group 3 of a match. */
  datatype Groups = Groups(folder: Option<string>, name: string)

  /**
   * `s` reads `folder + name + "." + ext`, where `folder` is empty or ends in
   * a separator, `name` holds no separator and `ext` holds no dot.
   */
  predicate Splits(s: string, folder: string, name: string) {
    var n := |folder| + |name|;
    n < |s| && s[..n] == folder + name && s[n] == '.'
    && (forall j :: n < j < |s| ==> s[j] != '.')
    && (forall j :: 0 <= j < |name| ==> !IsSeparator(name[j]))
    && (folder == [] || IsSeparator(folder[|folder| - 1]))
  }

  /** Group 1 as `match[1] || ''` reads it: empty when the group is absent or empty. */
  function FolderOf(g: Groups): (r: string)
    ensures r == "" <==> g.folder.None? || g.folder.value == ""
    ensures g.folder.Some? ==> r == g.folder.value
  {
    g.folder.GetOr("")
  }

  /**
   * The groups of the match that starts at the beginning of `line`: group 1
   * runs to the last separator before the last dot, group 3 from there to
   * that dot.
   */
  function MatchLine(line: string): (g: Groups)
    requires '.' in line
    ensures Splits(line, FolderOf(g), g.name)
    ensures g.folder.Some? ==> g.folder.value != ""
  {
    var d := LastIndex(line, IsDot).value;
    match LastIndex(line[..d], IsSeparator)
    case None => Groups(None, line[..d])
    case Some(k) => Groups(Some(line[..k + 1]), line[k + 1..d])
  }

  /**
   * `inFilePath.match(regexp)`: no match when the path holds no dot at all;
   * otherwise the match lies in the line that holds the first dot.
   */
  function Match(s: string): (r: Option<Groups>)
    ensures r.None? <==> '.' !in s
  {
    match FirstIndex(s, IsDot)
    case None => None
    case Some(d0) =>
      var b, e := LineStart(s, d0), LineEnd(s, d0);
      assert s[b..e][d0 - b] == '.';
      Some(MatchLine(s[b..e]))
  }

  /** On a one-line path holding a dot, the match's groups split the path. */
  lemma MatchSplits(s: string)
    requires NoLineTerminators(s) && '.' in s
    ensures Match(s).Some? && Splits(s, FolderOf(Match(s).value), Match(s).value.name)
  {
    MatchOfOneLine(s);
  }

  /**
   * On a one-line path holding a dot, `{folder}` is empty exactly when group
   * 1 did not take part, which is exactly when no separator precedes the
   * dot that ends group 3.
   */
  lemma {:induction false} EmptyFolderMeansNoSeparator(s: string)
    requires NoLineTerminators(s) && '.' in s
    ensures Match(s).Some?
    ensures FolderOf(Match(s).value) == "" <==> Match(s).value.folder.None?
    ensures FolderOf(Match(s).value) == "" <==>
      forall j :: 0 <= j < |FolderOf(Match(s).value)| + |Match(s).value.name| ==> !IsSeparator(s[j])
  {
    MatchOfOneLine(s);
    MatchSplits(s);
    var g := Match(s).value;
    var f := FolderOf(g);
    var n := |f| + |g.name|;
    if f == "" {
      forall j | 0 <= j < n ensures !IsSeparator(s[j]) {
        assert s[j] == s[..n][j] == g.name[j];
      }
    } else {
      assert s[|f| - 1] == s[..n][|f| - 1] == f[|f| - 1];
    }
  }

  /** A path splits in at most one way: the dot is the last one, the folder ends at the last separator before it. */
  lemma {:induction false} SplitsUnique(s: string, f1: string, n1: string, f2: string, n2: string)
    requires Splits(s, f1, n1) && Splits(s, f2, n2)
    ensures f1 == f2 && n1 == n2
  {
    var d1, d2 := |f1| + |n1|, |f2| + |n2|;
    assert s[d1] == '.' && s[d2] == '.';
    assert d1 == d2;
    forall f, n | Splits(s, f, n) && |f| > 0
      ensures IsSeparator(s[|f| - 1])
      ensures forall j :: |f| <= j < d1 ==> !IsSeparator(s[j])
    {
      assert s[|f| - 1] == (f + n)[|f| - 1] == f[|f| - 1];
      forall j | |f| <= j < d1 ensures !IsSeparator(s[j]) {
        assert s[j] == (f + n)[j] == n[j - |f|];
      }
    }
    assert |f1| == |f2|;
    assert f1 == (f1 + n1)[..|f1|] == s[..|f1|] == (f2 + n2)[..|f2|] == f2;
    assert n1 == (f1 + n1)[|f1|..] == (f2 + n2)[|f2|..] == n2;
  }

  /** On a one-line path, a split of the path is what the regex yields. */
  lemma MatchOfSplit(s: string, folder: string, name: string)
    requires NoLineTerminators(s) && Splits(s, folder, name)
    ensures Match(s).Some? && FolderOf(Match(s).value) == folder && Match(s).value.name == name
  {
    assert s[|folder| + |name|] == '.';
    MatchSplits(s);
    SplitsUnique(s, folder, name, FolderOf(Match(s).value), Match(s).value.name);
  }

  /** On a one-line path the regex yields exactly the split of the path, and every split is what it yields. */
  lemma MatchIsTheSplit(s: string, folder: string, name: string)
    requires NoLineTerminators(s)
    ensures Splits(s, folder, name) <==>
      Match(s).Some? && FolderOf(Match(s).value) == folder && Match(s).value.name == name
  {
    if Splits(s, folder, name) {
      MatchOfSplit(s, folder, name);
    } else if Match(s).Some? {
      MatchSplits(s);
    }
  }

  /**
   * Cutting after a separator at `off` and at a dot `d` with no separator
   * between them and no dot after `d` splits the path.
   */
  lemma SplitAt(s: string, off: nat, d: nat)
    requires off <= d < |s| && s[d] == '.'
    requires off == 0 || IsSeparator(s[off - 1])
    requires forall j :: off <= j < d ==> !IsSeparator(s[j])
    requires forall j :: d < j < |s| ==> s[j] != '.'
    ensures Splits(s, s[..off], s[off..d])
  {
    assert s[..d] == s[..off] + s[off..d];
  }

  /** The last dot of a text that holds one at or after `off`. */
  lemma LastDotFrom(s: string, off: nat) returns (d: nat)
    requires off <= |s| && '.' in s[off..]
    ensures off <= d < |s| && s[d] == '.'
    ensures forall j :: d < j < |s| ==> s[j] != '.'
  {
    var t := s[off..];
    var k :| 0 <= k < |t| && t[k] == '.';
    assert IsDot(t[k]);
    d := off + LastIndex(t, IsDot).value;
    forall j | d < j < |s| ensures s[j] != '.' {
      assert !IsDot(t[j - off]);
    }
  }

  /**
   * On a one-line path whose final segment (the text after `off`, which
   * follows the last separator) holds a dot, group 1 is the path up to and
   * including its last separator, empty when it has none, and group 3 is the
   * final segment up to its last dot.
   */
  lemma {:induction false} FolderAndFileOfPath(s: string, off: nat)
    requires NoLineTerminators(s)
    requires off <= |s| && (off == 0 || IsSeparator(s[off - 1]))
    requires forall j :: off <= j < |s| ==> !IsSeparator(s[j])
    requires '.' in s[off..]
    ensures Match(s).Some? && FolderOf(Match(s).value) == s[..off]
    ensures Splits(s, s[..off], Match(s).value.name)
    ensures FolderOf(Match(s).value) == "" <==> forall j :: 0 <= j < |s| ==> !IsSeparator(s[j])
  {
    var d := LastDotFrom(s, off);
    SplitAt(s, off, d);
    MatchOfSplit(s, s[..off], s[off..d]);
    assert off > 0 ==> s[..off] != "";
  }

  /** A line delimited by `b` and `e` holding index `i` is what `LineStart` and `LineEnd` find. */
  lemma {:induction false} LineBounds(s: string, b: nat, e: nat, i: nat)
    requires b <= i < e <= |s|
    requires b == 0 || IsLineTerminator(s[b - 1])
    requires e == |s| || IsLineTerminator(s[e])
    requires NoLineTerminators(s[b..e])
    ensures LineStart(s, i) == b && LineEnd(s, i) == e
  {
    forall j | b <= j < e ensures !IsLineTerminator(s[j]) {
      assert s[j] == s[b..e][j - b];
    }
  }

  /** In a text without line terminators every index lies in the one line that is the whole text. */
  lemma WholeLine(s: string, i: nat)
    requires i <= |s| && NoLineTerminators(s)
    ensures LineStart(s, i) == 0 && LineEnd(s, i) == |s|
  {
  }

  /** The first dot of a text whose first dot lies in `s[b..e]` is found there. */
  lemma {:induction false} FirstDotInLine(s: string, b: nat, e: nat)
    requires b <= e <= |s| && '.' in s[b..e] && '.' !in s[..b]
    ensures FirstIndex(s, IsDot).Some? && FirstIndex(s[b..e], IsDot).Some?
    ensures FirstIndex(s, IsDot).value == b + FirstIndex(s[b..e], IsDot).value
  {
    var line := s[b..e];
    forall j | 0 <= j < |line| ensures line[j] == s[b + j] { }
    forall j | 0 <= j < b ensures s[j] != '.' {
      assert s[..b][j] == s[j];
    }
    var k :| 0 <= k < |line| && line[k] == '.';
    assert IsDot(s[b + k]) && IsDot(line[k]);
  }

  /** The match of a text whose first dot is at `d0`, in the line from `b` to `e`, is the match of that line. */
  lemma MatchInLine(s: string, d0: nat, b: nat, e: nat)
    requires FirstIndex(s, IsDot) == Some(d0) && LineStart(s, d0) == b && LineEnd(s, d0) == e
    ensures Match(s) == Some(MatchLine(s[b..e]))
  {
  }

  /** A one-line text holding a dot matches as a whole line. */
  lemma MatchOfOneLine(line: string)
    requires NoLineTerminators(line) && '.' in line
    ensures Match(line) == Some(MatchLine(line))
  {
    var d1 := FirstIndex(line, IsDot).value;
    WholeLine(line, d1);
    assert line[0..|line|] == line;
    MatchInLine(line, d1, 0, |line|);
  }

  /**
   * A path of several lines matches as the line holding its first dot would
   * on its own: every earlier start position fails, since `.` stops at line
   * terminators.
   */
  lemma {:induction false} MatchOfFirstDotLine(s: string, b: nat, e: nat)
    requires b <= e <= |s|
    requires b == 0 || IsLineTerminator(s[b - 1])
    requires e == |s| || IsLineTerminator(s[e])
    requires NoLineTerminators(s[b..e]) && '.' in s[b..e] && '.' !in s[..b]
    ensures Match(s) == Match(s[b..e])
  {
    var line := s[b..e];
    FirstDotInLine(s, b, e);
    var d1 := FirstIndex(line, IsDot).value;
    LineBounds(s, b, e, b + d1);
    MatchInLine(s, b + d1, b, e);
    MatchOfOneLine(line);
  }
}
