/** `APIScraper._extract_code_samples` and `APIScraper._clean_html`
    (api_doc_generator/scraper.py:164-224). The two regular expressions are
    modelled as explicit scans; what BeautifulSoup finds in a document is
    given as input (the texts of its `code`/`pre` elements, and its text
    nodes outside `script` and `style`), since the HTML parser itself is not
    part of this model. */
module Extract {
  import opened Results
  import opened Text
  import CodeBlocks

  const Fence := "```"
  const PreOpen := "<pre><code>"
  const PreClose := "</code></pre>"

  /** The length of the run of `\w` characters starting at `i`. */
  function WordRun(s: string, i: nat): (n: nat)
    requires i <= |s|
    decreases |s| - i
    ensures i + n <= |s|
    ensures forall k :: i <= k < i + n ==> IsWordChar(s[k])
    ensures i + n == |s| || !IsWordChar(s[i + n])
  {
    if i < |s| && IsWordChar(s[i]) then 1 + WordRun(s, i + 1) else 0
  }

  /** Where a match lies in the scanned string: it starts at `at`, and its
      captured group is `s[lo..hi]`. */
  datatype Span = Span(at: nat, lo: nat, hi: nat)

  // ---------------------------------------------------------------------
  // What a match of each pattern is
  // ---------------------------------------------------------------------

  /** `m` is a match of `` ```[\w]*\n(.*?)``` `` (with `re.DOTALL`) that
      starts at `m.at`: a fence, word characters, a newline, and the group
      up to the first fence after it, which the lazy `(.*?)` stops at. */
  predicate FencedMatch(s: string, m: Span) {
    && m.at + |Fence| < m.lo <= m.hi
    && OccursAt(s, Fence, m.at)
    && OccursAt(s, Fence, m.hi)
    && (forall k :: m.at + |Fence| <= k < m.lo - 1 ==> IsWordChar(s[k]))
    && s[m.lo - 1] == '\n'
    && forall k :: m.lo <= k < m.hi ==> !OccursAt(s, Fence, k)
  }

  /** `m` is a match of `<pre><code>(.*?)</code></pre>` (with `re.DOTALL`)
      that starts at `m.at`: the opening tags, and the group up to the
      first closing tags after them. */
  predicate PreMatch(s: string, m: Span) {
    && m.lo == m.at + |PreOpen| <= m.hi
    && OccursAt(s, PreOpen, m.at)
    && OccursAt(s, PreClose, m.hi)
    && forall k :: m.lo <= k < m.hi ==> !OccursAt(s, PreClose, k)
  }

  // ---------------------------------------------------------------------
  // Trying a pattern at one position
  // ---------------------------------------------------------------------

  /** The match that starts at the fence at `p`, if the pattern matches
      there. The greedy `[\w]*` cannot give characters back to let `\n`
      match, so the language tag is the whole word run after the fence. */
  function FencedMatchAt(s: string, p: nat): (m: Option<Span>)
    requires OccursAt(s, Fence, p)
    ensures m.Some? ==> m.value.at == p && FencedMatch(s, m.value)
  {
    var q := p + |Fence| + WordRun(s, p + |Fence|);
    if q < |s| && s[q] == '\n' then
      match IndexOf(s, Fence, q + 1)
      case Some(e) => Some(Span(p, q + 1, e))
      case None => None
    else None
  }

  /** The fenced-block match that starts at `p`, if any. */
  function FencedAttempt(s: string, p: nat): (m: Option<Span>)
    ensures m.Some? ==> m.value.at == p && FencedMatch(s, m.value)
  {
    if OccursAt(s, Fence, p) then FencedMatchAt(s, p) else None
  }

  function FencedAttempts(s: string): nat -> Option<Span> {
    (p: nat) => FencedAttempt(s, p)
  }

  /** Every fenced-block match is the one the attempt at its start finds;
      in particular a match is determined by where it starts. */
  lemma FencedAttemptFinds(s: string, m: Span)
    requires FencedMatch(s, m)
    ensures FencedAttempt(s, m.at) == Some(m)
  {
    WordRunEndsAt(s, m.at + |Fence|, m.lo - 1);
    IndexOfIs(s, Fence, m.lo, m.hi);
  }

  /** A run of word characters ending at a non-word character is the whole
      word run. */
  lemma {:induction false} WordRunEndsAt(s: string, i: nat, j: nat)
    requires i <= j < |s|
    requires forall k :: i <= k < j ==> IsWordChar(s[k])
    requires !IsWordChar(s[j])
    ensures WordRun(s, i) == j - i
    decreases j - i
  {
    if i < j {
      WordRunEndsAt(s, i + 1, j);
    }
  }

  /** The `<pre><code>` match that starts at `p`, if any. */
  function PreAttempt(s: string, p: nat): (m: Option<Span>)
    ensures m.Some? ==> m.value.at == p && PreMatch(s, m.value)
  {
    if OccursAt(s, PreOpen, p) then
      match IndexOf(s, PreClose, p + |PreOpen|)
      case Some(e) => Some(Span(p, p + |PreOpen|, e))
      case None => None
    else None
  }

  function PreAttempts(s: string): nat -> Option<Span> {
    (p: nat) => PreAttempt(s, p)
  }

  /** Every `<pre><code>` match is the one the attempt at its start finds. */
  lemma PreAttemptFinds(s: string, m: Span)
    requires PreMatch(s, m)
    ensures PreAttempt(s, m.at) == Some(m)
  {
    IndexOfIs(s, PreClose, m.lo, m.hi);
  }

  // ---------------------------------------------------------------------
  // Where no match starts
  // ---------------------------------------------------------------------

  /** No attempt in `[lo, hi)` succeeds. */
  ghost predicate NoAttemptIn(attempt: nat -> Option<Span>, lo: nat, hi: nat) {
    forall p: nat :: lo <= p < hi ==> attempt(p).None?
  }

  /** The scan found `r` from `from` on, resuming `width` characters after
      each match: no match starts before the first found, between two
      found, or after the last. */
  ghost predicate Gaps(attempt: nat -> Option<Span>, from: nat, end: nat, width: nat, r: seq<Span>)
    decreases |r|
  {
    if r == [] then NoAttemptIn(attempt, from, end)
    else NoAttemptIn(attempt, from, r[0].at) && Gaps(attempt, r[0].hi + width, end, width, r[1..])
  }

  lemma GapsCons(attempt: nat -> Option<Span>, from: nat, end: nat, width: nat, m: Span, rest: seq<Span>)
    requires NoAttemptIn(attempt, from, m.at)
    requires Gaps(attempt, m.hi + width, end, width, rest)
    ensures Gaps(attempt, from, end, width, [m] + rest)
  {
    assert ([m] + rest)[1..] == rest;
  }

  lemma GapsWiden(attempt: nat -> Option<Span>, from: nat, p: nat, end: nat, width: nat, r: seq<Span>)
    requires from <= p
    requires NoAttemptIn(attempt, from, p) && attempt(p).None?
    requires Gaps(attempt, p + 1, end, width, r)
    ensures Gaps(attempt, from, end, width, r)
  {
  }

  /** A successful attempt at `p`, from `from` on, lies inside one of the
      matches found. */
  lemma {:induction false} GapsLocate(attempt: nat -> Option<Span>, from: nat, end: nat, width: nat, r: seq<Span>, p: nat)
    requires Gaps(attempt, from, end, width, r)
    requires from <= p < end && attempt(p).Some?
    ensures exists i :: 0 <= i < |r| && r[i].at <= p < r[i].hi + width
    decreases |r|
  {
    if r != [] && p >= r[0].hi + width {
      GapsLocate(attempt, r[0].hi + width, end, width, r[1..], p);
      var i :| 0 <= i < |r[1..]| && r[1..][i].at <= p < r[1..][i].hi + width;
      assert r[i + 1] == r[1..][i];
    }
  }

  /** Where no fence starts, no fenced-block match starts. */
  lemma NoFenceNoAttempt(s: string, lo: nat, hi: nat)
    requires forall k :: lo <= k < hi ==> !OccursAt(s, Fence, k)
    ensures NoAttemptIn(FencedAttempts(s), lo, hi)
  {
  }

  /** A fenced-block match found at the first fence from `from` on extends
      the gaps after it back to `from`. */
  lemma FencedFound(s: string, from: nat, m: Span, rest: seq<Span>)
    requires from <= m.at
    requires forall k :: from <= k < m.at ==> !OccursAt(s, Fence, k)
    requires Gaps(FencedAttempts(s), m.hi + |Fence|, |s|, |Fence|, rest)
    ensures Gaps(FencedAttempts(s), from, |s|, |Fence|, [m] + rest)
  {
    NoFenceNoAttempt(s, from, m.at);
    GapsCons(FencedAttempts(s), from, |s|, |Fence|, m, rest);
  }

  /** Putting a fenced-block match in front of the matches found after it
      keeps the list sound and ordered. */
  lemma FencedCons(s: string, from: nat, m: Span, rest: seq<Span>)
    requires from <= m.at && FencedMatch(s, m)
    requires forall i :: 0 <= i < |rest| ==> m.hi + |Fence| <= rest[i].at && FencedMatch(s, rest[i])
    requires forall i :: 0 <= i < |rest| - 1 ==> rest[i].hi + |Fence| <= rest[i + 1].at
    ensures var r := [m] + rest;
      && (forall i :: 0 <= i < |r| ==> from <= r[i].at && FencedMatch(s, r[i]))
      && (forall i :: 0 <= i < |r| - 1 ==> r[i].hi + |Fence| <= r[i + 1].at)
  {
    var r := [m] + rest;
    forall i | 0 < i < |r| ensures from <= r[i].at && FencedMatch(s, r[i]) {
      assert r[i] == rest[i - 1];
    }
    forall i | 0 < i < |r| - 1 ensures r[i].hi + |Fence| <= r[i + 1].at {
      assert r[i] == rest[i - 1] && r[i + 1] == rest[i];
    }
  }

  /** A failed attempt at the first fence from `from` on joins the gap
      after it. */
  lemma FencedMissed(s: string, from: nat, p: nat, rest: seq<Span>)
    requires from <= p && OccursAt(s, Fence, p) && FencedMatchAt(s, p).None?
    requires forall k :: from <= k < p ==> !OccursAt(s, Fence, k)
    requires Gaps(FencedAttempts(s), p + 1, |s|, |Fence|, rest)
    ensures Gaps(FencedAttempts(s), from, |s|, |Fence|, rest)
  {
    NoFenceNoAttempt(s, from, p);
    GapsWiden(FencedAttempts(s), from, p, |s|, |Fence|, rest);
  }

  /** Where no opening tags start, no `<pre><code>` match starts. */
  lemma NoOpenNoAttempt(s: string, lo: nat, hi: nat)
    requires forall k :: lo <= k < hi ==> !OccursAt(s, PreOpen, k)
    ensures NoAttemptIn(PreAttempts(s), lo, hi)
  {
  }

  /** A `<pre><code>` match found at the first opening tags from `from` on
      extends the gaps after it back to `from`. */
  lemma PreFound(s: string, from: nat, m: Span, rest: seq<Span>)
    requires from <= m.at
    requires forall k :: from <= k < m.at ==> !OccursAt(s, PreOpen, k)
    requires Gaps(PreAttempts(s), m.hi + |PreClose|, |s|, |PreClose|, rest)
    ensures Gaps(PreAttempts(s), from, |s|, |PreClose|, [m] + rest)
  {
    NoOpenNoAttempt(s, from, m.at);
    GapsCons(PreAttempts(s), from, |s|, |PreClose|, m, rest);
  }

  /** Putting a `<pre><code>` match in front of the matches found after
      it keeps the list sound and ordered. */
  lemma PreCons(s: string, from: nat, m: Span, rest: seq<Span>)
    requires from <= m.at && PreMatch(s, m)
    requires forall i :: 0 <= i < |rest| ==> m.hi + |PreClose| <= rest[i].at && PreMatch(s, rest[i])
    requires forall i :: 0 <= i < |rest| - 1 ==> rest[i].hi + |PreClose| <= rest[i + 1].at
    ensures var r := [m] + rest;
      && (forall i :: 0 <= i < |r| ==> from <= r[i].at && PreMatch(s, r[i]))
      && (forall i :: 0 <= i < |r| - 1 ==> r[i].hi + |PreClose| <= r[i + 1].at)
  {
    var r := [m] + rest;
    forall i | 0 < i < |r| ensures from <= r[i].at && PreMatch(s, r[i]) {
      assert r[i] == rest[i - 1];
    }
    forall i | 0 < i < |r| - 1 ensures r[i].hi + |PreClose| <= r[i + 1].at {
      assert r[i] == rest[i - 1] && r[i + 1] == rest[i];
    }
  }

  /** A failed attempt at the first opening tags from `from` on joins the
      gap after it. */
  lemma PreMissed(s: string, from: nat, p: nat, rest: seq<Span>)
    requires from <= p && PreAttempt(s, p).None?
    requires forall k :: from <= k < p ==> !OccursAt(s, PreOpen, k)
    requires Gaps(PreAttempts(s), p + 1, |s|, |PreClose|, rest)
    ensures Gaps(PreAttempts(s), from, |s|, |PreClose|, rest)
  {
    NoOpenNoAttempt(s, from, p);
    GapsWiden(PreAttempts(s), from, p, |s|, |PreClose|, rest);
  }

  // ---------------------------------------------------------------------
  // The scans of `re.finditer`
  // ---------------------------------------------------------------------

  /** The matches of `re.finditer(r'```[\w]*\n(.*?)```', s, re.DOTALL)`,
      scanning from `from`, with no
      match starting anywhere else: the scan jumps to the next fence; where the
      pattern fails there it moves on by one character, and after a match
      it resumes behind the closing fence. */
  function FencedSpans(s: string, from: nat): (r: seq<Span>)
    requires from <= |s|
    decreases |s| - from
    ensures forall i :: 0 <= i < |r| ==> from <= r[i].at && FencedMatch(s, r[i])
    ensures forall i :: 0 <= i < |r| - 1 ==> r[i].hi + |Fence| <= r[i + 1].at
    ensures Gaps(FencedAttempts(s), from, |s|, |Fence|, r)
  {
    match IndexOf(s, Fence, from)
    case None =>
      NoFenceNoAttempt(s, from, |s|);
      []
    case Some(p) =>
      match FencedMatchAt(s, p)
      case Some(m) =>
        var rest := FencedSpans(s, m.hi + |Fence|);
        FencedFound(s, from, m, rest);
        FencedCons(s, from, m, rest);
        [m] + rest
      case None =>
        var rest := FencedSpans(s, p + 1);
        FencedMissed(s, from, p, rest);
        rest
  }

  /** The matches of `re.finditer(r'<pre><code>(.*?)</code></pre>', s,
      re.DOTALL)`, scanning from `from`, with no match starting anywhere
      else. */
  function PreCodeSpans(s: string, from: nat): (r: seq<Span>)
    requires from <= |s|
    decreases |s| - from
    ensures forall i :: 0 <= i < |r| ==> from <= r[i].at && PreMatch(s, r[i])
    ensures forall i :: 0 <= i < |r| - 1 ==> r[i].hi + |PreClose| <= r[i + 1].at
    ensures Gaps(PreAttempts(s), from, |s|, |PreClose|, r)
  {
    match IndexOf(s, PreOpen, from)
    case None =>
      NoOpenNoAttempt(s, from, |s|);
      []
    case Some(p) =>
      match PreAttempt(s, p)
      case Some(m) =>
        var rest := PreCodeSpans(s, m.hi + |PreClose|);
        PreFound(s, from, m, rest);
        PreCons(s, from, m, rest);
        [m] + rest
      case None =>
        var rest := PreCodeSpans(s, p + 1);
        PreMissed(s, from, p, rest);
        rest
  }

  /** `re.findall` misses no fenced block: every match of the pattern is
      one the scan reports, or starts inside one it reports. */
  lemma FencedSpansMissNothing(s: string, m: Span)
    requires FencedMatch(s, m)
    ensures exists i :: 0 <= i < |FencedSpans(s, 0)| &&
              FencedSpans(s, 0)[i].at <= m.at < FencedSpans(s, 0)[i].hi + |Fence|
  {
    var r := FencedSpans(s, 0);
    FencedAttemptFinds(s, m);
    assert FencedAttempts(s)(m.at).Some?;
    GapsLocate(FencedAttempts(s), 0, |s|, |Fence|, r, m.at);
  }

  /** `re.findall` misses no `<pre><code>` block. */
  lemma PreCodeSpansMissNothing(s: string, m: Span)
    requires PreMatch(s, m)
    ensures exists i :: 0 <= i < |PreCodeSpans(s, 0)| &&
              PreCodeSpans(s, 0)[i].at <= m.at < PreCodeSpans(s, 0)[i].hi + |PreClose|
  {
    var r := PreCodeSpans(s, 0);
    PreAttemptFinds(s, m);
    assert PreAttempts(s)(m.at).Some?;
    GapsLocate(PreAttempts(s), 0, |s|, |PreClose|, r, m.at);
  }

  /** The text of each span. */
  function Captured(s: string, spans: seq<Span>): (r: seq<string>)
    requires forall i :: 0 <= i < |spans| ==> spans[i].lo <= spans[i].hi <= |s|
    ensures |r| == |spans|
  {
    seq(|spans|, i requires 0 <= i < |spans| => s[spans[i].lo..spans[i].hi])
  }

  /** `re.findall(r'```[\w]*\n(.*?)```', s, re.DOTALL)`. */
  function FencedBlocks(s: string): seq<string>
  {
    Captured(s, FencedSpans(s, 0))
  }

  /** `re.findall(r'<pre><code>(.*?)</code></pre>', s, re.DOTALL)`. */
  function PreCodeBlocks(s: string): seq<string>
  {
    Captured(s, PreCodeSpans(s, 0))
  }

  // ---------------------------------------------------------------------
  // The two list comprehensions, for any transformation
  // ---------------------------------------------------------------------

  /** `[f(t) for t in texts if f(t)]`: the non-empty transformed strings,
      in their order. */
  function MapNonEmpty(texts: seq<string>, f: string -> string): (r: seq<string>)
    ensures |r| <= |texts|
    ensures forall i :: 0 <= i < |r| ==> r[i] != []
  {
    if texts == [] then []
    else
      var rest := MapNonEmpty(texts[1..], f);
      if f(texts[0]) == [] then rest else [f(texts[0])] + rest
  }

  /** `[f(b) for b in blocks if b.strip()]`: the filter looks at the raw
      block, before it is transformed. */
  function MapNonBlank(blocks: seq<string>, f: string -> string): (r: seq<string>)
    ensures |r| <= |blocks|
  {
    if blocks == [] then []
    else
      var rest := MapNonBlank(blocks[1..], f);
      if IsBlank(blocks[0]) then rest else [f(blocks[0])] + rest
  }

  /** Every result of `MapNonEmpty` is the transform of some input. */
  lemma {:induction false} MapNonEmptyFrom(texts: seq<string>, f: string -> string, i: nat)
    requires i < |MapNonEmpty(texts, f)|
    ensures exists j :: 0 <= j < |texts| && MapNonEmpty(texts, f)[i] == f(texts[j])
  {
    var rest := MapNonEmpty(texts[1..], f);
    if f(texts[0]) != [] && i == 0 {
      assert MapNonEmpty(texts, f)[0] == f(texts[0]);
    } else {
      var i' := if f(texts[0]) == [] then i else i - 1;
      assert MapNonEmpty(texts, f)[i] == rest[i'];
      MapNonEmptyFrom(texts[1..], f, i');
      var j :| 0 <= j < |texts[1..]| && rest[i'] == f(texts[1..][j]);
      assert texts[1..][j] == texts[j + 1];
    }
  }

  /** Every input whose transform is non-empty is kept. */
  lemma {:induction false} MapNonEmptyKeeps(texts: seq<string>, f: string -> string, j: nat)
    requires j < |texts| && f(texts[j]) != []
    ensures exists i :: 0 <= i < |MapNonEmpty(texts, f)| && MapNonEmpty(texts, f)[i] == f(texts[j])
  {
    var rest := MapNonEmpty(texts[1..], f);
    if j == 0 {
      assert MapNonEmpty(texts, f) == [f(texts[0])] + rest;
      assert MapNonEmpty(texts, f)[0] == f(texts[j]);
    } else {
      assert texts[1..][j - 1] == texts[j];
      MapNonEmptyKeeps(texts[1..], f, j - 1);
      var i :| 0 <= i < |rest| && rest[i] == f(texts[j]);
      if f(texts[0]) != [] {
        assert MapNonEmpty(texts, f)[i + 1] == rest[i];
      } else {
        assert MapNonEmpty(texts, f) == rest;
      }
    }
  }

  /** Nothing is kept exactly when every transform is empty. */
  lemma {:induction false} MapNonEmptyEmptyIff(texts: seq<string>, f: string -> string)
    ensures MapNonEmpty(texts, f) == [] <==> forall j :: 0 <= j < |texts| ==> f(texts[j]) == []
  {
    if texts != [] {
      MapNonEmptyEmptyIff(texts[1..], f);
      assert forall j :: 1 <= j < |texts| ==> texts[j] == texts[1..][j - 1];
    }
  }

  /** Applying the comprehension twice with an idempotent transform is the
      same as applying it once. */
  lemma {:induction false} MapNonEmptyIdempotent(texts: seq<string>, f: string -> string)
    requires forall t :: f(f(t)) == f(t)
    ensures MapNonEmpty(MapNonEmpty(texts, f), f) == MapNonEmpty(texts, f)
  {
    if texts != [] {
      var t := f(texts[0]);
      var rest := MapNonEmpty(texts[1..], f);
      MapNonEmptyIdempotent(texts[1..], f);
      if t != [] {
        assert ([t] + rest)[1..] == rest;
        assert f(t) == t;
      }
    }
  }

  /** Every result of `MapNonBlank` is the transform of a non-blank input. */
  lemma {:induction false} MapNonBlankFrom(blocks: seq<string>, f: string -> string, i: nat)
    requires i < |MapNonBlank(blocks, f)|
    ensures exists j :: 0 <= j < |blocks| && !IsBlank(blocks[j]) && MapNonBlank(blocks, f)[i] == f(blocks[j])
  {
    var rest := MapNonBlank(blocks[1..], f);
    if !IsBlank(blocks[0]) && i == 0 {
      assert MapNonBlank(blocks, f)[0] == f(blocks[0]);
    } else {
      var i' := if IsBlank(blocks[0]) then i else i - 1;
      assert MapNonBlank(blocks, f)[i] == rest[i'];
      MapNonBlankFrom(blocks[1..], f, i');
      var j :| 0 <= j < |blocks[1..]| && !IsBlank(blocks[1..][j]) && rest[i'] == f(blocks[1..][j]);
      assert blocks[1..][j] == blocks[j + 1];
    }
  }

  /** Every non-blank input gives a result. */
  lemma {:induction false} MapNonBlankKeeps(blocks: seq<string>, f: string -> string, j: nat)
    requires j < |blocks| && !IsBlank(blocks[j])
    ensures exists i :: 0 <= i < |MapNonBlank(blocks, f)| && MapNonBlank(blocks, f)[i] == f(blocks[j])
  {
    var rest := MapNonBlank(blocks[1..], f);
    if j == 0 {
      assert MapNonBlank(blocks, f) == [f(blocks[0])] + rest;
      assert MapNonBlank(blocks, f)[0] == f(blocks[j]);
    } else {
      assert blocks[1..][j - 1] == blocks[j];
      MapNonBlankKeeps(blocks[1..], f, j - 1);
      var i :| 0 <= i < |rest| && rest[i] == f(blocks[j]);
      if !IsBlank(blocks[0]) {
        assert MapNonBlank(blocks, f)[i + 1] == rest[i];
      } else {
        assert MapNonBlank(blocks, f) == rest;
      }
    }
  }

  /** The comprehension distributes over concatenation: results keep the
      order of their inputs. */
  lemma {:induction false} MapNonBlankAppend(a: seq<string>, b: seq<string>, f: string -> string)
    ensures MapNonBlank(a + b, f) == MapNonBlank(a, f) + MapNonBlank(b, f)
  {
    if a != [] {
      assert (a + b)[1..] == a[1..] + b;
      MapNonBlankAppend(a[1..], b, f);
    } else {
      assert a + b == b;
    }
  }

  /** `[f(b) for b in blocks]`. */
  function MapAll(blocks: seq<string>, f: string -> string): (r: seq<string>)
    ensures |r| == |blocks|
    ensures forall i :: 0 <= i < |blocks| ==> r[i] == f(blocks[i])
  {
    seq(|blocks|, i requires 0 <= i < |blocks| => f(blocks[i]))
  }

  /** Inputs that are all non-blank each give one result, at their own
      position. */
  lemma {:induction false} MapNonBlankOfNonBlank(blocks: seq<string>, f: string -> string)
    requires forall i :: 0 <= i < |blocks| ==> !IsBlank(blocks[i])
    ensures MapNonBlank(blocks, f) == MapAll(blocks, f)
  {
    if blocks != [] {
      MapNonBlankOfNonBlank(blocks[1..], f);
      assert forall i :: 1 <= i < |blocks| ==> blocks[i] == blocks[1..][i - 1];
    }
  }

  // ---------------------------------------------------------------------
  // The scraper's uses of them
  // ---------------------------------------------------------------------

  /** `s.strip()` is idempotent. */
  lemma StripIdempotent()
    ensures forall t :: Strip(Strip(t)) == Strip(t)
  {
    forall t ensures Strip(Strip(t)) == Strip(t) {
      StripOfStripped(Strip(t));
    }
  }

  /** `[t.strip() for t in texts if t.strip()]`: the non-blank strings,
      stripped, in their order. BeautifulSoup's `stripped_strings` is this
      function applied to a document's text nodes. */
  function StripAll(texts: seq<string>): (r: seq<string>)
    ensures |r| <= |texts|
    ensures forall i :: 0 <= i < |r| ==> r[i] != [] && Stripped(r[i])
  {
    var r := MapNonEmpty(texts, Strip);
    forall i | 0 <= i < |r| ensures Stripped(r[i]) {
      MapNonEmptyFrom(texts, Strip, i);
    }
    r
  }

  /** The candidate blocks, in the order the source collects them: fenced
      blocks, then `<pre><code>` blocks, then the stripped non-blank texts of
      the document's `code` and `pre` elements. */
  function Candidates(content: string, elementTexts: seq<string>): seq<string>
  {
    FencedBlocks(content) + PreCodeBlocks(content) + StripAll(elementTexts)
  }

  /** `_extract_code_samples(content)` (scraper.py:164-176); `elementTexts`
      are the `.text` values of the `code` and `pre` elements of `content`.
      The samples of the fenced and `<pre><code>` blocks come first, and
      every element text gives a sample after them. */
  function ExtractCodeSamples(content: string, elementTexts: seq<string>): (r: seq<string>)
    ensures r == MapNonBlank(FencedBlocks(content) + PreCodeBlocks(content), CodeBlocks.CleanCodeBlock)
                 + MapAll(StripAll(elementTexts), CodeBlocks.CleanCodeBlock)
    ensures forall i :: 0 <= i < |r| ==> Stripped(r[i])
  {
    var blocks := FencedBlocks(content) + PreCodeBlocks(content);
    var texts := StripAll(elementTexts);
    var r := MapNonBlank(blocks + texts, CodeBlocks.CleanCodeBlock);
    MapNonBlankAppend(blocks, texts, CodeBlocks.CleanCodeBlock);
    MapNonBlankOfNonBlank(texts, CodeBlocks.CleanCodeBlock);
    CleanedAreStripped(blocks + texts);
    assert blocks + texts == Candidates(content, elementTexts);
    r
  }

  /** Every cleaned block is stripped. */
  lemma CleanedAreStripped(blocks: seq<string>)
    ensures forall i :: 0 <= i < |MapNonBlank(blocks, CodeBlocks.CleanCodeBlock)| ==>
              Stripped(MapNonBlank(blocks, CodeBlocks.CleanCodeBlock)[i])
  {
    var r := MapNonBlank(blocks, CodeBlocks.CleanCodeBlock);
    forall i | 0 <= i < |r| ensures Stripped(r[i]) {
      MapNonBlankFrom(blocks, CodeBlocks.CleanCodeBlock, i);
    }
  }

  /** `_clean_html(content)` (scraper.py:209-224), given the text nodes of
      the document outside `script` and `style`: the `stripped_strings`,
      stripped again and kept when non-empty, one per line. */
  function CleanHtml(textNodes: seq<string>): (r: string)
    ensures Stripped(r)
    ensures r == [] <==> forall i :: 0 <= i < |textNodes| ==> IsBlank(textNodes[i])
  {
    var lines := StripAll(StripAll(textNodes));
    JoinStrippedParts(lines);
    StripAllEmptyIff(StripAll(textNodes));
    StripAllEmptyIff(textNodes);
    Join(lines, "\n")
  }

  /** Nothing survives `StripAll` exactly when every string is blank. */
  lemma StripAllEmptyIff(texts: seq<string>)
    ensures StripAll(texts) == [] <==> forall i :: 0 <= i < |texts| ==> IsBlank(texts[i])
  {
    MapNonEmptyEmptyIff(texts, Strip);
    forall i | 0 <= i < |texts| ensures Strip(texts[i]) == [] <==> IsBlank(texts[i]) {
      StripIsTheInnerSlice(texts[i]);
    }
  }

  /** Stripping a second time, as `_clean_html` does on the
      `stripped_strings`, changes nothing. */
  lemma StripAllIdempotent(texts: seq<string>)
    ensures StripAll(StripAll(texts)) == StripAll(texts)
  {
    StripIdempotent();
    MapNonEmptyIdempotent(texts, Strip);
  }

  /** The cleaned text contains every non-blank text node, stripped. */
  lemma CleanHtmlKeepsText(textNodes: seq<string>, i: nat)
    requires i < |textNodes| && !IsBlank(textNodes[i])
    ensures Contains(CleanHtml(textNodes), Strip(textNodes[i]))
  {
    StripAllIdempotent(textNodes);
    StripIsTheInnerSlice(textNodes[i]);
    MapNonEmptyKeeps(textNodes, Strip, i);
    var lines := StripAll(textNodes);
    var j :| 0 <= j < |lines| && lines[j] == Strip(textNodes[i]);
    JoinContainsPart(lines, "\n", j);
  }

  /** The samples are exactly the cleaned non-blank candidates: every sample
      is the cleaned form of a non-blank candidate, and every non-blank
      candidate gives a sample. */
  lemma ExtractCodeSamplesSpec(content: string, elementTexts: seq<string>)
    ensures var c := Candidates(content, elementTexts);
      var r := ExtractCodeSamples(content, elementTexts);
      && (forall i :: 0 <= i < |r| ==>
            exists j :: 0 <= j < |c| && !IsBlank(c[j]) && r[i] == CodeBlocks.CleanCodeBlock(c[j]))
      && (forall j :: 0 <= j < |c| && !IsBlank(c[j]) ==>
            exists i :: 0 <= i < |r| && r[i] == CodeBlocks.CleanCodeBlock(c[j]))
  {
    var c := Candidates(content, elementTexts);
    var r := ExtractCodeSamples(content, elementTexts);
    assert r == MapNonBlank(c, CodeBlocks.CleanCodeBlock);
    forall i | 0 <= i < |r|
      ensures exists j :: 0 <= j < |c| && !IsBlank(c[j]) && r[i] == CodeBlocks.CleanCodeBlock(c[j])
    {
      MapNonBlankFrom(c, CodeBlocks.CleanCodeBlock, i);
    }
    forall j | 0 <= j < |c| && !IsBlank(c[j])
      ensures exists i :: 0 <= i < |r| && r[i] == CodeBlocks.CleanCodeBlock(c[j])
    {
      MapNonBlankKeeps(c, CodeBlocks.CleanCodeBlock, j);
    }
  }

  // ---------------------------------------------------------------------
  // The patterns find what they are meant to find
  // ---------------------------------------------------------------------

  /** A string without `<` holds no `<pre><code>` block. */
  lemma NoTagNoPreBlocks(s: string)
    requires forall k :: 0 <= k < |s| ==> s[k] != '<'
    ensures PreCodeBlocks(s) == []
  {
    assert forall k :: 0 <= k ==> !OccursAt(s, PreOpen, k) by {
      forall k | 0 <= k && k + |PreOpen| <= |s| ensures !OccursAt(s, PreOpen, k) {
        assert s[k..k + |PreOpen|][0] == s[k];
      }
    }
  }

  /** One `<pre><code>` block around a body without `<` is found, and its
      body is captured unchanged. */
  lemma PreCodeRoundTrip(body: string)
    requires forall k :: 0 <= k < |body| ==> body[k] != '<'
    ensures PreCodeBlocks(PreOpen + body + PreClose) == [body]
  {
    var s := PreOpen + body + PreClose;
    var a := |PreOpen|;
    var e := a + |body|;
    assert s[..a] == PreOpen;
    IndexOfIs(s, PreOpen, 0, 0);
    assert s[e..] == PreClose;
    forall k | a <= k < e ensures !OccursAt(s, PreClose, k) {
      assert s[k] == body[k - a];
    }
    IndexOfIs(s, PreClose, a, e);
    assert s[a..e] == body;
    assert e + |PreClose| == |s|;
    assert PreCodeSpans(s, 0) == [Span(0, a, e)];
  }

  /** One fenced block with a word-only language tag around a body without
      a backtick is found, and its body is captured unchanged. */
  lemma FencedRoundTrip(lang: string, body: string)
    requires forall k :: 0 <= k < |lang| ==> IsWordChar(lang[k])
    requires forall k :: 0 <= k < |body| ==> body[k] != '`'
    ensures FencedBlocks(Fence + lang + "\n" + body + Fence) == [body]
  {
    var s := Fence + lang + "\n" + body + Fence;
    var q := |Fence| + |lang|;
    var e := q + 1 + |body|;
    FencedBlockLayout(lang, body);
    FencedBlockMatch(lang, body);
    assert FencedSpans(s, e + |Fence|) == [];
    assert FencedSpans(s, 0) == [Span(0, q + 1, e)];
  }

  /** The scan finds the opening fence at the start and the match there
      captures the body. */
  lemma FencedBlockMatch(lang: string, body: string)
    requires forall k :: 0 <= k < |lang| ==> IsWordChar(lang[k])
    requires forall k :: 0 <= k < |body| ==> body[k] != '`'
    ensures var s := Fence + lang + "\n" + body + Fence;
      var q := |Fence| + |lang|;
      && IndexOf(s, Fence, 0) == Some(0)
      && FencedMatchAt(s, 0) == Some(Span(0, q + 1, q + 1 + |body|))
  {
    var s := Fence + lang + "\n" + body + Fence;
    var q := |Fence| + |lang|;
    var e := q + 1 + |body|;
    FencedBlockLayout(lang, body);
    IndexOfIs(s, Fence, 0, 0);
    assert FencedMatch(s, Span(0, q + 1, e));
    FencedAttemptFinds(s, Span(0, q + 1, e));
  }

  /** Where the parts of a fenced block lie. */
  lemma FencedBlockLayout(lang: string, body: string)
    requires forall k :: 0 <= k < |lang| ==> IsWordChar(lang[k])
    requires forall k :: 0 <= k < |body| ==> body[k] != '`'
    ensures var s := Fence + lang + "\n" + body + Fence;
      var q := |Fence| + |lang|;
      && |s| == q + 1 + |body| + |Fence|
      && OccursAt(s, Fence, 0)
      && (forall k :: |Fence| <= k < q ==> IsWordChar(s[k]))
      && s[q] == '\n'
      && s[q + 1..q + 1 + |body|] == body
      && OccursAt(s, Fence, q + 1 + |body|)
      && forall k :: q + 1 <= k < q + 1 + |body| ==> !OccursAt(s, Fence, k)
  {
    var s := Fence + lang + "\n" + body + Fence;
    var q := |Fence| + |lang|;
    var e := q + 1 + |body|;
    assert s[..|Fence|] == Fence;
    assert forall k :: |Fence| <= k < q ==> s[k] == lang[k - |Fence|];
    assert s[e..] == Fence;
    forall k | q + 1 <= k < e ensures !OccursAt(s, Fence, k) {
      assert s[k] == body[k - q - 1];
    }
  }

  /** A document that is one fenced block, with no HTML code elements,
      yields one sample, the cleaned body, unless the body is blank. */
  lemma OneFencedSample(lang: string, body: string)
    requires forall k :: 0 <= k < |lang| ==> IsWordChar(lang[k])
    requires forall k :: 0 <= k < |body| ==> body[k] != '`' && body[k] != '<'
    ensures ExtractCodeSamples(Fence + lang + "\n" + body + Fence, [])
            == if IsBlank(body) then [] else [CodeBlocks.CleanCodeBlock(body)]
  {
    var s := Fence + lang + "\n" + body + Fence;
    FencedRoundTrip(lang, body);
    FencedBlockHasNoTag(lang, body);
    NoTagNoPreBlocks(s);
    assert Candidates(s, []) == [body];
  }

  /** A fenced block around a tag and body without `<` has no `<`. */
  lemma FencedBlockHasNoTag(lang: string, body: string)
    requires forall k :: 0 <= k < |lang| ==> IsWordChar(lang[k])
    requires forall k :: 0 <= k < |body| ==> body[k] != '<'
    ensures var s := Fence + lang + "\n" + body + Fence;
      forall k :: 0 <= k < |s| ==> s[k] != '<'
  {
    var s := Fence + lang + "\n" + body + Fence;
    var q := |Fence| + |lang|;
    forall k | 0 <= k < |s| ensures s[k] != '<' {
      if k < |Fence| {
      } else if k < q {
        assert s[k] == lang[k - |Fence|];
      } else if k == q {
      } else if k < q + 1 + |body| {
        assert s[k] == body[k - q - 1];
      } else {
        assert s[k] == Fence[k - q - 1 - |body|];
      }
    }
  }

  /** A fenced block holding only a number is kept as a candidate, because
      the blank filter runs before cleaning, and yields an empty sample. */
  lemma NumberOnlyFenceGivesEmptySample(lang: string, digits: string)
    requires forall k :: 0 <= k < |lang| ==> IsWordChar(lang[k])
    requires digits != [] && AllDigits(digits)
    ensures ExtractCodeSamples(Fence + lang + "\n" + digits + Fence, []) == [""]
  {
    OneFencedSample(lang, digits);
    CodeBlocks.NumberOnlyBlockCleansToEmpty(digits);
  }
}
