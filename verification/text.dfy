/** Python string primitives the scraper and the generator rely on:
    `str.isspace`, `strip`/`lstrip`, `splitlines`, `sep.join`, substring
    search (`in`, `find`) and integer formatting. Strings are sequences of
    Unicode code points, as Python's `str` is. */
module Text {
  import opened Results

  /** `c.isspace()` in Python 3: the characters of bidirectional class
      WS, B or S, or of general category Zs. */
  predicate IsSpace(c: char) {
    if c <= ' ' then ('\t' <= c <= '\r') || '\U{1C}' <= c
    else '\U{85}' <= c && IsWideSpace(c)
  }

  /** The whitespace characters beyond ASCII. */
  predicate IsWideSpace(c: char) {
    || c == '\U{85}' || c == '\U{A0}' || c == '\U{1680}'
    || ('\U{2000}' <= c <= '\U{200A}')
    || c == '\U{2028}' || c == '\U{2029}' || c == '\U{202F}'
    || c == '\U{205F}' || c == '\U{3000}'
  }

  /** The characters at which `str.splitlines` breaks a line. */
  predicate IsLineBreak(c: char) {
    || c == '\n' || c == '\r' || c == '\U{0B}' || c == '\U{0C}'
    || c == '\U{1C}' || c == '\U{1D}' || c == '\U{1E}'
    || c == '\U{85}' || c == '\U{2028}' || c == '\U{2029}'
  }

  /** An ASCII decimal digit (the model's reading of the regex class `\d`). */
  predicate IsDigit(c: char) {
    '0' <= c <= '9'
  }

  /** An ASCII letter. */
  predicate IsAsciiLetter(c: char) {
    ('a' <= c <= 'z') || ('A' <= c <= 'Z')
  }

  /** The model's reading of the regex class `\w`: ASCII letters, digits and `_`. */
  predicate IsWordChar(c: char) {
    IsAsciiLetter(c) || IsDigit(c) || c == '_'
  }

  /** `s.strip() == ""`: the string holds whitespace only. */
  predicate IsBlank(s: string) {
    forall i :: 0 <= i < |s| ==> IsSpace(s[i])
  }

  predicate AllDigits(s: string) {
    forall i :: 0 <= i < |s| ==> IsDigit(s[i])
  }

  /** `s.lstrip()`: the suffix that starts at the first non-whitespace character. */
  function TrimStart(s: string): (r: string)
    ensures |r| <= |s| && r == s[|s| - |r|..]
    ensures r == [] || !IsSpace(r[0])
    ensures IsBlank(s[..|s| - |r|])
  {
    if s != [] && IsSpace(s[0]) then
      var t := s[1..];
      var r := TrimStart(t);
      assert s[|s| - |r|..] == t[|t| - |r|..];
      assert s[..|s| - |r|] == [s[0]] + t[..|t| - |r|];
      r
    else s
  }

  /** `s.rstrip()`: the prefix that ends at the last non-whitespace character. */
  function TrimEnd(s: string): (r: string)
    ensures |r| <= |s| && r == s[..|r|]
    ensures r == [] || !IsSpace(r[|r| - 1])
    ensures IsBlank(s[|r|..])
  {
    if s != [] && IsSpace(s[|s| - 1]) then
      var t := s[..|s| - 1];
      var r := TrimEnd(t);
      assert s[..|r|] == t[..|r|];
      assert s[|r|..] == t[|r|..] + [s[|s| - 1]];
      r
    else s
  }

  /** Neither starts nor ends with whitespace: what `s.strip()` leaves. */
  predicate Stripped(s: string) {
    s == [] || (!IsSpace(s[0]) && !IsSpace(s[|s| - 1]))
  }

  /** `s.strip()`. */
  function Strip(s: string): (r: string)
    ensures Stripped(r)
  {
    var t := TrimStart(s);
    var r := TrimEnd(t);
    assert r != [] ==> r[0] == t[0];
    r
  }

  /** `s.strip()` is the slice of `s` between its leading and trailing
      whitespace: it neither starts nor ends with whitespace, and only
      whitespace was cut away on either side. */
  lemma StripIsTheInnerSlice(s: string)
    ensures exists i, j ::
              && 0 <= i <= j <= |s| && Strip(s) == s[i..j]
              && IsBlank(s[..i]) && IsBlank(s[j..])
    ensures Strip(s) == [] <==> IsBlank(s)
  {
    var t := TrimStart(s);
    var i := |s| - |t|;
    var r := TrimEnd(t);
    var j := i + |r|;
    assert r == s[i..j];
    assert s[j..] == t[|r|..];
    if r == [] {
      assert t == t[|r|..];
      assert t == [];
      assert s == s[..i];
    } else {
      assert !IsSpace(r[0]) by {
        assert r[0] == t[0];
      }
    }
  }

  /** `len(s) - len(s.lstrip())`: the width of the leading whitespace. */
  function LeadingSpaces(s: string): (n: nat)
    ensures n <= |s|
  {
    |s| - |TrimStart(s)|
  }

  lemma LeadingSpacesFacts(s: string)
    ensures IsBlank(s[..LeadingSpaces(s)])
    ensures LeadingSpaces(s) < |s| ==> !IsSpace(s[LeadingSpaces(s)])
    ensures LeadingSpaces(s) == |s| <==> IsBlank(s)
  {
    var t := TrimStart(s);
    if t != [] {
      assert s[LeadingSpaces(s)] == t[0];
    }
  }

  /** `sep.join(parts)`. */
  function Join(parts: seq<string>, sep: string): string
  {
    if |parts| == 0 then ""
    else if |parts| == 1 then parts[0]
    else parts[0] + sep + Join(parts[1..], sep)
  }

  /** Joining two non-empty lists puts exactly one separator between them. */
  lemma {:induction false} JoinAppend(a: seq<string>, b: seq<string>, sep: string)
    requires a != [] && b != []
    ensures Join(a + b, sep) == Join(a, sep) + sep + Join(b, sep)
  {
    if |a| == 1 {
      assert (a + b)[1..] == b;
    } else {
      assert (a + b)[1..] == a[1..] + b;
      JoinAppend(a[1..], b, sep);
    }
  }

  /** A joined string starts with its first part, and is at least one
      separator longer than that part when there is a second one. */
  lemma JoinStartsWithFirst(parts: seq<string>, sep: string)
    requires parts != []
    ensures |Join(parts, sep)| >= |parts[0]|
    ensures Join(parts, sep)[..|parts[0]|] == parts[0]
    ensures |parts| > 1 ==> |Join(parts, sep)| >= |parts[0]| + |sep|
  {
  }

  /** Every character of a joined string comes from a part or a separator. */
  lemma {:induction false} JoinChars(parts: seq<string>, sep: string, P: char -> bool)
    requires forall i :: 0 <= i < |parts| ==> forall k :: 0 <= k < |parts[i]| ==> P(parts[i][k])
    requires forall k :: 0 <= k < |sep| ==> P(sep[k])
    ensures forall k :: 0 <= k < |Join(parts, sep)| ==> P(Join(parts, sep)[k])
  {
    if |parts| > 1 {
      JoinChars(parts[1..], sep, P);
      var j := Join(parts[1..], sep);
      forall k | 0 <= k < |parts[0] + sep + j| ensures P((parts[0] + sep + j)[k]) {
        if k < |parts[0]| {
        } else if k < |parts[0]| + |sep| {
          assert (parts[0] + sep + j)[k] == sep[k - |parts[0]|];
        } else {
          assert (parts[0] + sep + j)[k] == j[k - |parts[0]| - |sep|];
        }
      }
    }
  }

  /** Joining non-empty stripped parts with a newline gives a non-empty
      stripped string whenever there is a part at all. */
  lemma {:induction false} JoinStrippedParts(parts: seq<string>)
    requires forall i :: 0 <= i < |parts| ==> parts[i] != [] && Stripped(parts[i])
    ensures Stripped(Join(parts, "\n"))
    ensures Join(parts, "\n") == [] <==> parts == []
  {
    if |parts| > 1 {
      var j := Join(parts[1..], "\n");
      JoinStrippedParts(parts[1..]);
      var s := parts[0] + "\n" + j;
      assert s[0] == parts[0][0];
      assert s[|s| - 1] == j[|j| - 1];
    }
  }

  /** A joined string contains each part at a known offset. */
  lemma {:induction false} JoinContainsPart(parts: seq<string>, sep: string, i: nat)
    requires i < |parts|
    ensures exists k: nat :: OccursAt(Join(parts, sep), parts[i], k)
  {
    if |parts| == 1 {
      assert OccursAt(Join(parts, sep), parts[0], 0);
    } else {
      var j := Join(parts[1..], sep);
      assert Join(parts, sep) == parts[0] + sep + j;
      if i == 0 {
        assert OccursAt(Join(parts, sep), parts[0], 0);
      } else {
        JoinContainsPart(parts[1..], sep, i - 1);
        var k: nat :| OccursAt(j, parts[i], k);
        var off := |parts[0]| + |sep|;
        assert Join(parts, sep)[off + k..off + k + |parts[i]|] == j[k..k + |parts[i]|];
        assert OccursAt(Join(parts, sep), parts[i], off + k);
      }
    }
  }

  /** The index of the first line break in `s`, or `|s|` when there is none. */
  function FirstLineBreak(s: string): (i: nat)
    ensures i <= |s|
    ensures i < |s| ==> IsLineBreak(s[i])
    ensures forall k :: 0 <= k < i ==> !IsLineBreak(s[k])
  {
    if s == [] || IsLineBreak(s[0]) then 0 else 1 + FirstLineBreak(s[1..])
  }

  /** `s.splitlines()`: lines without their terminators; `"\r\n"` ends a
      single line, and a terminator at the very end opens no extra line. */
  function SplitLines(s: string): (lines: seq<string>)
    decreases |s|
  {
    if s == [] then []
    else
      var i := FirstLineBreak(s);
      if i == |s| then [s]
      else
        var width := if s[i] == '\r' && i + 1 < |s| && s[i + 1] == '\n' then 2 else 1;
        [s[..i]] + SplitLines(s[i + width..])
  }

  /** No line produced by `splitlines` contains a line break, and only the
      empty string splits into no lines at all. */
  lemma {:induction false} SplitLinesHaveNoBreaks(s: string)
    ensures forall j, k ::
              0 <= j < |SplitLines(s)| && 0 <= k < |SplitLines(s)[j]| ==> !IsLineBreak(SplitLines(s)[j][k])
    ensures SplitLines(s) == [] <==> s == []
  {
    if s != [] {
      var i := FirstLineBreak(s);
      if i < |s| {
        var width := if s[i] == '\r' && i + 1 < |s| && s[i + 1] == '\n' then 2 else 1;
        SplitLinesHaveNoBreaks(s[i + width..]);
      }
    }
  }

  /** Splitting a string that holds no line break gives that string back as
      its only line (or nothing, for the empty string). */
  lemma SplitSingleLine(s: string)
    requires forall k :: 0 <= k < |s| ==> !IsLineBreak(s[k])
    ensures SplitLines(s) == if s == [] then [] else [s]
  {
  }

  /** `pat` occurs in `s` starting at index `k`. */
  predicate OccursAt(s: string, pat: string, k: nat) {
    k + |pat| <= |s| && s[k..k + |pat|] == pat
  }

  /** `s.find(pat, start)`: the first occurrence of `pat` at or after `start`. */
  function IndexOf(s: string, pat: string, start: nat): (r: Option<nat>)
    decreases |s| - start
    ensures r.Some? ==> start <= r.value && OccursAt(s, pat, r.value)
    ensures r.Some? ==> forall k :: start <= k < r.value ==> !OccursAt(s, pat, k)
    ensures r.None? ==> forall k :: start <= k ==> !OccursAt(s, pat, k)
  {
    if start + |pat| > |s| then None
    else if OccursAt(s, pat, start) then Some(start)
    else IndexOf(s, pat, start + 1)
  }

  /** A one-character pattern occurs exactly where that character is. */
  lemma OccursCharAt(s: string, c: char, k: nat)
    ensures OccursAt(s, [c], k) <==> k < |s| && s[k] == c
  {
    if k < |s| {
      assert s[k..k + 1] == [s[k]];
    }
  }

  /** `find` returns `e` when `pat` occurs at `e` and nowhere between
      `start` and `e`. */
  lemma IndexOfIs(s: string, pat: string, start: nat, e: nat)
    requires start <= e && OccursAt(s, pat, e)
    requires forall k :: start <= k < e ==> !OccursAt(s, pat, k)
    ensures IndexOf(s, pat, start) == Some(e)
  {
  }

  /** Python's `needle in hay` on strings: a substring test. */
  function Contains(hay: string, needle: string): (b: bool)
    ensures b <==> exists k :: 0 <= k <= |hay| && OccursAt(hay, needle, k)
  {
    IndexOf(hay, needle, 0).Some?
  }

  /** Every string contains itself and the empty string. */
  lemma ContainsSelfAndEmpty(s: string)
    ensures Contains(s, s)
    ensures Contains(s, "")
  {
    assert OccursAt(s, s, 0);
    assert OccursAt(s, "", 0);
  }

  /** A needle found in a string is found in any string that has it as a slice. */
  lemma ContainsOfSlice(s: string, i: nat, j: nat, needle: string)
    requires i <= j <= |s|
    requires Contains(s[i..j], needle)
    ensures Contains(s, needle)
  {
    var k :| 0 <= k <= |s[i..j]| && OccursAt(s[i..j], needle, k);
    assert k + |needle| <= j - i;
    forall m | 0 <= m < |needle| ensures s[i + k + m] == needle[m] {
      assert s[i..j][k..k + |needle|][m] == needle[m];
    }
    assert s[i + k..i + k + |needle|] == needle;
    assert OccursAt(s, needle, i + k);
  }

  function DigitChar(d: nat): (c: char)
    requires d < 10
    ensures IsDigit(c)
  {
    "0123456789"[d]
  }

  function DigitValue(c: char): (d: nat)
    requires IsDigit(c)
    ensures d < 10
  {
    (c as int - '0' as int) as nat
  }

  /** `str(n)` for a non-negative integer: its decimal digits, most
      significant first, without leading zeros. */
  function NatToString(n: nat): (r: string)
    decreases n
    ensures |r| >= 1 && AllDigits(r)
    ensures |r| > 1 ==> r[0] != '0'
  {
    if n < 10 then [DigitChar(n)] else NatToString(n / 10) + [DigitChar(n % 10)]
  }

  /** Reading a string of decimal digits back as a number. */
  function ParseDecimal(s: string): nat
    requires AllDigits(s)
  {
    if s == [] then 0 else ParseDecimal(s[..|s| - 1]) * 10 + DigitValue(s[|s| - 1])
  }

  /** Formatting a number and reading it back gives the number, so distinct
      numbers are formatted differently. */
  lemma {:induction false} NatToStringRoundTrip(n: nat)
    ensures ParseDecimal(NatToString(n)) == n
    decreases n
  {
    var r := NatToString(n);
    if n < 10 {
      assert r[..|r| - 1] == [];
      assert DigitValue(DigitChar(n)) == n by {
        assert "0123456789"[n] as int - '0' as int == n;
      }
    } else {
      NatToStringRoundTrip(n / 10);
      assert r[..|r| - 1] == NatToString(n / 10);
      var d := n % 10;
      assert DigitValue(DigitChar(d)) == d by {
        assert "0123456789"[d] as int - '0' as int == d;
      }
    }
  }

  lemma NatToStringInjective(m: nat, n: nat)
    requires NatToString(m) == NatToString(n)
    ensures m == n
  {
    NatToStringRoundTrip(m);
    NatToStringRoundTrip(n);
  }

  /** A string that is already stripped is its own `strip()`. */
  lemma StripOfStripped(s: string)
    requires Stripped(s)
    ensures Strip(s) == s
  {
  }

  /** Whitespace `sp` in front of text that starts with a non-space is
      exactly the leading whitespace. */
  lemma LeadingSpacesOf(sp: string, t: string)
    requires IsBlank(sp)
    requires t == [] || !IsSpace(t[0])
    ensures LeadingSpaces(sp + t) == |sp|
  {
    var s := sp + t;
    var n := LeadingSpaces(s);
    LeadingSpacesFacts(s);
    assert forall k :: 0 <= k < |sp| ==> s[k] == sp[k];
    assert t != [] ==> s[|sp|] == t[0];
  }

  /** Two lines joined by `"\n"` split back into the same two lines. */
  lemma SplitTwoLines(a: string, b: string)
    requires forall k :: 0 <= k < |a| ==> !IsLineBreak(a[k])
    requires forall k :: 0 <= k < |b| ==> !IsLineBreak(b[k])
    requires b != []
    ensures SplitLines(a + "\n" + b) == [a, b]
  {
    var s := a + "\n" + b;
    var i := FirstLineBreak(s);
    assert s[|a|] == '\n';
    assert forall k :: 0 <= k < |a| ==> s[k] == a[k];
    assert i == |a|;
    assert s[..i] == a;
    assert s[i + 1..] == b;
    SplitSingleLine(b);
  }
}
