/**
 * The two JavaScript string built-ins that the output-path mapper relies on:
 * `indexOf` (the leftmost occurrence of a search string) and
 * `String.prototype.replace` called with a string pattern, which replaces
 * only the first occurrence and expands `$` sequences in the replacement.
 */
module JsString {
  import opened Wrappers

  /** `pat` occurs in `s` starting at index `i`. */
  predicate OccursAt(s: string, pat: string, i: int) {
    0 <= i && i + |pat| <= |s| && s[i..i + |pat|] == pat
  }

  /** `pat` occurs somewhere in `s`. */
  predicate Occurs(s: string, pat: string) {
    exists i :: 0 <= i <= |s| && OccursAt(s, pat, i)
  }

  /** `i` is the leftmost occurrence of `pat` in `s`. */
  predicate IsFirstOccurrence(s: string, pat: string, i: int) {
    OccursAt(s, pat, i) && forall j :: 0 <= j < i ==> !OccursAt(s, pat, j)
  }

  /** The leftmost occurrence of `pat` in `s` at or after `from`, as `indexOf` searches. */
  function IndexOfFrom(s: string, pat: string, from: nat): (r: Option<nat>)
    requires from <= |s|
    ensures r.Some? ==> from <= r.value && OccursAt(s, pat, r.value)
    ensures r.Some? ==> forall j :: from <= j < r.value ==> !OccursAt(s, pat, j)
    ensures r.None? ==> forall j :: from <= j ==> !OccursAt(s, pat, j)
    decreases |s| - from
  {
    if OccursAt(s, pat, from) then Some(from)
    else if from == |s| then None
    else IndexOfFrom(s, pat, from + 1)
  }

  /** `s.indexOf(pat)`: the leftmost occurrence of `pat` in `s`, if any. */
  function IndexOf(s: string, pat: string): (r: Option<nat>)
    ensures r.Some? ==> IsFirstOccurrence(s, pat, r.value)
    ensures r.None? <==> !Occurs(s, pat)
  {
    IndexOfFrom(s, pat, 0)
  }

  /**
   * The text that replaces a match of a string pattern: `$$` stands for `$`,
   * `$&` for the matched text, `` $` `` for the text before the match and
   * `$'` for the text after it. A string pattern has no capture groups, so
   * every other `$` (as in `$1` or `$<`) is copied literally.
   */
  function Substitution(repl: string, matched: string, before: string, after: string): (r: string)
    ensures '$' !in repl ==> r == repl
  {
    if |repl| == 0 then ""
    else if repl[0] == '$' && |repl| >= 2 && repl[1] == '$' then
      "$" + Substitution(repl[2..], matched, before, after)
    else if repl[0] == '$' && |repl| >= 2 && repl[1] == '&' then
      matched + Substitution(repl[2..], matched, before, after)
    else if repl[0] == '$' && |repl| >= 2 && repl[1] == '`' then
      before + Substitution(repl[2..], matched, before, after)
    else if repl[0] == '$' && |repl| >= 2 && repl[1] == '\'' then
      after + Substitution(repl[2..], matched, before, after)
    else
      [repl[0]] + Substitution(repl[1..], matched, before, after)
  }

  /** `s.replace(pat, repl)` with a string `pat`: only the leftmost occurrence is replaced. */
  function Replace(s: string, pat: string, repl: string): (r: string)
    ensures !Occurs(s, pat) ==> r == s
    ensures forall i :: IsFirstOccurrence(s, pat, i) ==>
      r == s[..i] + Substitution(repl, pat, s[..i], s[i + |pat|..]) + s[i + |pat|..]
  {
    match IndexOf(s, pat)
    case None => s
    case Some(i) => s[..i] + Substitution(repl, pat, s[..i], s[i + |pat|..]) + s[i + |pat|..]
  }

  /**
   * Only the leftmost occurrence is touched: the text before it is kept, and
   * the text after it, later occurrences included, ends the result unchanged.
   * Without `$` in `repl` the occurrence becomes `repl` verbatim.
   */
  lemma OnlyFirstOccurrenceReplaced(s: string, pat: string, repl: string, i: nat)
    requires IsFirstOccurrence(s, pat, i)
    ensures var r := Replace(s, pat, repl);
      |r| >= |s| - |pat| && r[..i] == s[..i] && r[|r| - (|s| - i - |pat|)..] == s[i + |pat|..]
    ensures '$' !in repl ==> Replace(s, pat, repl) == s[..i] + repl + s[i + |pat|..]
  {
    var sub := Substitution(repl, pat, s[..i], s[i + |pat|..]);
    var r := Replace(s, pat, repl);
    assert r == s[..i] + sub + s[i + |pat|..];
    assert r[..i] == s[..i];
    assert r[|r| - (|s| - i - |pat|)..] == s[i + |pat|..];
  }

  /**
   * When the first character of `pat` appears nowhere else in it, an
   * occurrence of `pat` right after a text free of `pat` is the leftmost one.
   */
  lemma {:induction false} FirstOccurrenceAfter(a: string, pat: string, c: string)
    requires |pat| > 0 && forall k :: 0 < k < |pat| ==> pat[k] != pat[0]
    requires !Occurs(a, pat)
    ensures IsFirstOccurrence(a + pat + c, pat, |a|)
  {
    var s := a + pat + c;
    assert s[|a|..|a| + |pat|] == pat;
    forall j | 0 <= j < |a| ensures !OccursAt(s, pat, j) {
      if j + |pat| <= |a| {
        assert s[j..j + |pat|] == a[j..j + |pat|];
        assert !OccursAt(a, pat, j);
      } else {
        assert s[|a|] == pat[0];
        assert s[j..j + |pat|][|a| - j] == s[|a|];
      }
    }
  }

  /** A text lacking one of the characters of `pat` holds no occurrence of it. */
  lemma AbsentCharMeansNoOccurrence(s: string, pat: string, k: nat)
    requires k < |pat| && pat[k] !in s
    ensures !Occurs(s, pat)
  {
    forall i | 0 <= i && i + |pat| <= |s| ensures !OccursAt(s, pat, i) {
      assert s[i..i + |pat|][k] == s[i + k];
    }
  }
}
