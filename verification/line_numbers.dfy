/** The three regular-expression substitutions `_clean_code_block` applies
    before it looks at lines (api_doc_generator/scraper.py:184-186):

      re.sub(r'\s*_?\d+\s*$', '', code)                      -- trailing number
      re.sub(r'^\s*_?\d+\s*', '', code, flags=re.MULTILINE)  -- leading numbers
      re.sub(r'\n\s*\n+', '\n\n', code)                      -- blank runs

    Each is written out as the left-to-right scan Python's `re.sub` performs:
    at each position the greedy pattern is tried once (these patterns never
    need a backtracking choice that changes the match), a match is replaced
    and the scan resumes after it, otherwise one character is copied. */
module LineNumbers {
  import opened Results
  import opened Text

  /** All characters of `s[lo..hi]` are whitespace. */
  predicate SpacesIn(s: string, lo: nat, hi: nat)
    requires lo <= hi <= |s|
  {
    forall m :: lo <= m < hi ==> IsSpace(s[m])
  }

  /** All characters of `s[lo..hi]` are digits. */
  predicate DigitsIn(s: string, lo: nat, hi: nat)
    requires lo <= hi <= |s|
  {
    forall m :: lo <= m < hi ==> IsDigit(s[m])
  }

  /** The length of the whitespace run that starts at `i` (a greedy `\s*`). */
  function SpaceRun(s: string, i: nat): (n: nat)
    requires i <= |s|
    decreases |s| - i
    ensures i + n <= |s| && SpacesIn(s, i, i + n)
    ensures i + n == |s| || !IsSpace(s[i + n])
  {
    if i < |s| && IsSpace(s[i]) then 1 + SpaceRun(s, i + 1) else 0
  }

  /** The length of the digit run that starts at `i` (a greedy `\d+`). */
  function DigitRun(s: string, i: nat): (n: nat)
    requires i <= |s|
    decreases |s| - i
    ensures i + n <= |s| && DigitsIn(s, i, i + n)
    ensures i + n == |s| || !IsDigit(s[i + n])
  {
    if i < |s| && IsDigit(s[i]) then 1 + DigitRun(s, i + 1) else 0
  }

  /** The length of the whitespace run that ends just before `j`. */
  function SpaceRunBefore(s: string, j: nat): (n: nat)
    requires j <= |s|
    ensures n <= j && SpacesIn(s, j - n, j)
    ensures n == j || !IsSpace(s[j - n - 1])
  {
    if j > 0 && IsSpace(s[j - 1]) then 1 + SpaceRunBefore(s, j - 1) else 0
  }

  /** The length of the digit run that ends just before `j`. */
  function DigitRunBefore(s: string, j: nat): (n: nat)
    requires j <= |s|
    ensures n <= j && DigitsIn(s, j - n, j)
    ensures n == j || !IsDigit(s[j - n - 1])
  {
    if j > 0 && IsDigit(s[j - 1]) then 1 + DigitRunBefore(s, j - 1) else 0
  }

  // ---------------------------------------------------------------------
  // re.sub(r'\s*_?\d+\s*$', '', code)
  // ---------------------------------------------------------------------

  /** `s[q..]` is matched in full by `\s*_?\d+\s*`: the regex semantics of
      a match of the trailing-number pattern that starts at `q` (a match
      that stops before a final newline extends over it, so `$` adds
      nothing beyond "runs to the end"). */
  ghost predicate NumberTailAt(s: string, q: nat)
    requires q <= |s|
  {
    exists i, j, k ::
      && q <= i <= j < k <= |s|
      && SpacesIn(s, q, i)
      && (j == i || (j == i + 1 && s[i] == '_'))
      && DigitsIn(s, j, k)
      && SpacesIn(s, k, |s|)
  }

  /** Where the trailing-number match starts, if there is one. */
  function TrailingNumberStart(s: string): (p: Option<nat>)
    ensures p.Some? ==> p.value <= |s|
  {
    var a := |s| - SpaceRunBefore(s, |s|);
    var d := DigitRunBefore(s, a);
    if d == 0 then None
    else
      var b := a - d;
      var c := if b > 0 && s[b - 1] == '_' then b - 1 else b;
      Some(c - SpaceRunBefore(s, c))
  }

  /** `re.sub(r'\s*_?\d+\s*$', '', code)`: drops the trailing line number. */
  function StripTrailingNumber(s: string): (r: string)
    ensures |r| <= |s| && r == s[..|r|]
  {
    match TrailingNumberStart(s)
    case Some(p) => s[..p]
    case None => s
  }

  /** The computed start is the leftmost position where the regex matches,
      and the regex matches nowhere when none is computed: the scan agrees
      with the pattern's semantics. */
  lemma TrailingNumberStartIsLeftmost(s: string)
    ensures TrailingNumberStart(s).Some? ==> NumberTailAt(s, TrailingNumberStart(s).value)
    ensures TrailingNumberStart(s).Some? ==>
              forall q :: 0 <= q < TrailingNumberStart(s).value ==> !NumberTailAt(s, q)
    ensures TrailingNumberStart(s).None? ==> forall q :: 0 <= q <= |s| ==> !NumberTailAt(s, q)
  {
    TrailingNumberStartMatches(s);
    NoMatchBeforeStart(s);
  }

  /** The regex matches at the computed start. */
  lemma TrailingNumberStartMatches(s: string)
    ensures TrailingNumberStart(s).Some? ==> NumberTailAt(s, TrailingNumberStart(s).value)
  {
    var a := |s| - SpaceRunBefore(s, |s|);
    var d := DigitRunBefore(s, a);
    var b := a - d;
    var c := if b > 0 && s[b - 1] == '_' then b - 1 else b;
    var p := c - SpaceRunBefore(s, c);
    if d > 0 {
      StartFromRuns(s, a, b, c, p);
      assert SpacesIn(s, p, c) && DigitsIn(s, b, a) && SpacesIn(s, a, |s|);
      NumberTailWitness(s, p, c, b, a);
    }
  }

  /** Runs of spaces, an optional `_`, digits and spaces to the end make a match. */
  lemma NumberTailWitness(s: string, q: nat, i: nat, j: nat, k: nat)
    requires q <= i <= j < k <= |s|
    requires SpacesIn(s, q, i) && (j == i || (j == i + 1 && s[i] == '_'))
    requires DigitsIn(s, j, k) && SpacesIn(s, k, |s|)
    ensures NumberTailAt(s, q)
  {
  }

  /** Wherever the regex matches, a start is computed, at or before it. */
  lemma NoMatchBeforeStart(s: string)
    ensures forall q :: 0 <= q <= |s| && NumberTailAt(s, q) ==>
              TrailingNumberStart(s).Some? && TrailingNumberStart(s).value <= q
  {
    forall q | 0 <= q <= |s| && NumberTailAt(s, q)
      ensures TrailingNumberStart(s).Some? && TrailingNumberStart(s).value <= q
    {
      var i, j, k :| && q <= i <= j < k <= |s|
                     && SpacesIn(s, q, i)
                     && (j == i || (j == i + 1 && s[i] == '_'))
                     && DigitsIn(s, j, k)
                     && SpacesIn(s, k, |s|);
      NoEarlierTail(s, q, i, j, k);
    }
  }

  /** Any match of the trailing-number pattern starts at or after the
      computed start. */
  lemma NoEarlierTail(s: string, q: nat, i: nat, j: nat, k: nat)
    requires q <= i <= j < k <= |s|
    requires SpacesIn(s, q, i)
    requires j == i || (j == i + 1 && s[i] == '_')
    requires DigitsIn(s, j, k)
    requires SpacesIn(s, k, |s|)
    ensures TrailingNumberStart(s).Some? && TrailingNumberStart(s).value <= q
  {
    var a := |s| - SpaceRunBefore(s, |s|);
    DigitsEndWhereSpacesStart(s, j, k, a);
    assert IsDigit(s[a - 1]);
    assert DigitRunBefore(s, a) > 0;
    var b := a - DigitRunBefore(s, a);
    DigitsStartNoEarlier(s, j, a, b);
    var c := if b > 0 && s[b - 1] == '_' then b - 1 else b;
    var p := c - SpaceRunBefore(s, c);
    StartFromRuns(s, a, b, c, p);
    if j > b {
      DigitsStartLater(s, q, i, j, b);
    } else {
      MatchStartsAfterRunStart(s, q, i, j, c, p);
    }
  }

  /** With a digit run before the trailing whitespace, the match starts
      at the whitespace before the digits and the optional underscore. */
  lemma StartFromRuns(s: string, a: nat, b: nat, c: nat, p: nat)
    requires a == |s| - SpaceRunBefore(s, |s|) && DigitRunBefore(s, a) > 0
    requires b == a - DigitRunBefore(s, a)
    requires c == if b > 0 && s[b - 1] == '_' then b - 1 else b
    requires p == c - SpaceRunBefore(s, c)
    ensures TrailingNumberStart(s) == Some(p)
  {
  }

  /** The digits of a match end where the trailing whitespace begins. */
  lemma DigitsEndWhereSpacesStart(s: string, j: nat, k: nat, a: nat)
    requires j < k <= |s| && DigitsIn(s, j, k) && SpacesIn(s, k, |s|)
    requires a == |s| - SpaceRunBefore(s, |s|)
    ensures k == a
  {
    assert IsDigit(s[k - 1]);
  }

  /** Digits that end at `a` start no earlier than the maximal digit run. */
  lemma DigitsStartNoEarlier(s: string, j: nat, a: nat, b: nat)
    requires j <= a <= |s| && DigitsIn(s, j, a)
    requires b == a - DigitRunBefore(s, a)
    ensures j >= b
  {
  }

  /** A match whose digits start inside the maximal digit run has no
      whitespace or underscore before them. */
  lemma DigitsStartLater(s: string, q: nat, i: nat, j: nat, b: nat)
    requires q <= i <= j <= |s| && b < j
    requires SpacesIn(s, q, i)
    requires j == i || (j == i + 1 && s[i] == '_')
    requires IsDigit(s[j - 1])
    ensures b < q
  {
  }

  /** A match whose digits start at the start of the maximal digit run
      starts inside the whitespace run before the optional underscore. */
  lemma MatchStartsAfterRunStart(s: string, q: nat, i: nat, j: nat, c: nat, p: nat)
    requires q <= i <= j <= |s|
    requires SpacesIn(s, q, i)
    requires j == i || (j == i + 1 && s[i] == '_')
    requires c == if j > 0 && s[j - 1] == '_' then j - 1 else j
    requires p == c - SpaceRunBefore(s, c)
    ensures p <= q
  {
  }

  // ---------------------------------------------------------------------
  // re.sub(r'^\s*_?\d+\s*', '', code, flags=re.MULTILINE)
  // ---------------------------------------------------------------------

  /** Where `^` matches under `re.MULTILINE`: the start, and after each `\n`. */
  predicate AtLineStart(s: string, i: nat)
    requires i <= |s|
  {
    i == 0 || s[i - 1] == '\n'
  }

  /** The end of a match of `\s*_?\d+\s*` starting at `i`, if it matches.
      The leading `\s*` may run across line breaks, as it does in Python. */
  function LeadingMatchEnd(s: string, i: nat): (e: Option<nat>)
    requires i <= |s|
    ensures e.Some? ==> i < e.value <= |s|
  {
    var j := i + SpaceRun(s, i);
    var k := if j < |s| && s[j] == '_' then j + 1 else j;
    var m := k + DigitRun(s, k);
    if m == k then None else Some(m + SpaceRun(s, m))
  }

  /** The substitution applied to the text from index `i` on. */
  function StripLeadingNumbersFrom(s: string, i: nat): (r: string)
    requires i <= |s|
    decreases |s| - i
    ensures |r| <= |s| - i
  {
    if i == |s| then ""
    else if AtLineStart(s, i) && LeadingMatchEnd(s, i).Some? then
      StripLeadingNumbersFrom(s, LeadingMatchEnd(s, i).value)
    else
      [s[i]] + StripLeadingNumbersFrom(s, i + 1)
  }

  /** `re.sub(r'^\s*_?\d+\s*', '', code, flags=re.MULTILINE)`. */
  function StripLeadingNumbers(s: string): string
  {
    StripLeadingNumbersFrom(s, 0)
  }

  /** No line of `s` (from index `i` on) starts with a line number. */
  predicate NoLeadingNumberFrom(s: string, i: nat)
    requires i <= |s|
  {
    forall k :: i <= k < |s| && AtLineStart(s, k) ==> LeadingMatchEnd(s, k).None?
  }

  /** Text in which no line starts with a number is left exactly as it is. */
  lemma {:induction false} StripLeadingNumbersKeepsUnnumbered(s: string, i: nat)
    requires i <= |s|
    requires NoLeadingNumberFrom(s, i)
    ensures StripLeadingNumbersFrom(s, i) == s[i..]
    decreases |s| - i
  {
    if i < |s| {
      StripLeadingNumbersKeepsUnnumbered(s, i + 1);
      assert s[i..] == [s[i]] + s[i + 1..];
    }
  }

  // ---------------------------------------------------------------------
  // re.sub(r'\n\s*\n+', '\n\n', code)
  // ---------------------------------------------------------------------

  /** The last `\n` in `s[lo..hi]`, if any. */
  function LastNewlineIn(s: string, lo: nat, hi: nat): (k: Option<nat>)
    requires lo <= hi <= |s|
    decreases hi - lo
    ensures k.Some? ==> lo <= k.value < hi && s[k.value] == '\n'
    ensures k.Some? ==> forall m :: k.value < m < hi ==> s[m] != '\n'
    ensures k.None? ==> forall m :: lo <= m < hi ==> s[m] != '\n'
  {
    if lo == hi then None
    else if s[hi - 1] == '\n' then Some(hi - 1)
    else LastNewlineIn(s, lo, hi - 1)
  }

  /** The end of a match of `\n\s*\n+` starting at `i`: the greedy `\s*`
      gives back characters until `\n+` can take the last newline of the
      whitespace run, so the match ends right after that newline. */
  function BlankRunEnd(s: string, i: nat): (e: Option<nat>)
    requires i < |s|
    ensures e.Some? ==> i + 1 < e.value <= |s|
  {
    if s[i] != '\n' then None
    else
      var j := i + 1 + SpaceRun(s, i + 1);
      match LastNewlineIn(s, i + 1, j)
      case Some(k) => Some(k + 1)
      case None => None
  }

  function CollapseBlankRunsFrom(s: string, i: nat): (r: string)
    requires i <= |s|
    decreases |s| - i
    ensures |r| <= |s| - i
  {
    if i == |s| then ""
    else match BlankRunEnd(s, i)
      case Some(e) => "\n\n" + CollapseBlankRunsFrom(s, e)
      case None => [s[i]] + CollapseBlankRunsFrom(s, i + 1)
  }

  /** `re.sub(r'\n\s*\n+', '\n\n', code)`. */
  function CollapseBlankRuns(s: string): string
  {
    CollapseBlankRunsFrom(s, 0)
  }

  /** Two newlines with nothing but whitespace between them. */
  predicate HasBlankLineAt(s: string, i: nat)
    requires i < |s|
  {
    BlankRunEnd(s, i).Some?
  }

  /** Text without a blank line is left exactly as it is. */
  lemma {:induction false} CollapseKeepsTextWithoutBlankLines(s: string, i: nat)
    requires i <= |s|
    requires forall k :: i <= k < |s| ==> !HasBlankLineAt(s, k)
    ensures CollapseBlankRunsFrom(s, i) == s[i..]
    decreases |s| - i
  {
    if i < |s| {
      assert !HasBlankLineAt(s, i);
      CollapseKeepsTextWithoutBlankLines(s, i + 1);
      assert s[i..] == [s[i]] + s[i + 1..];
    }
  }

  /** The whole line-number pre-pass, in the order the source applies it. */
  function StripLineNumbers(code: string): string
  {
    CollapseBlankRuns(StripLeadingNumbers(StripTrailingNumber(code)))
  }

  /** Text with no digit and no blank line passes the whole pre-pass
      unchanged: the pre-pass only ever removes numbers and blank lines. */
  lemma StripLineNumbersKeepsPlainText(s: string)
    requires forall k :: 0 <= k < |s| ==> !IsDigit(s[k])
    requires forall k :: 0 <= k < |s| ==> !HasBlankLineAt(s, k)
    ensures StripLineNumbers(s) == s
  {
    assert TrailingNumberStart(s).None? by {
      var a := |s| - SpaceRunBefore(s, |s|);
      assert DigitRunBefore(s, a) == 0;
    }
    assert NoLeadingNumberFrom(s, 0) by {
      forall k | 0 <= k < |s| && AtLineStart(s, k) ensures LeadingMatchEnd(s, k).None? {
        var j := k + SpaceRun(s, k);
        var m := if j < |s| && s[j] == '_' then j + 1 else j;
        assert DigitRun(s, m) == 0;
      }
    }
    StripLeadingNumbersKeepsUnnumbered(s, 0);
    CollapseKeepsTextWithoutBlankLines(s, 0);
  }
}
