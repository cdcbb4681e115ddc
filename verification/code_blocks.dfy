/** `APIScraper._clean_code_block` (api_doc_generator/scraper.py:178-207):
    after the line-number pre-pass, split into lines, drop blank lines at
    both ends, remove the indentation all non-blank lines share, and strip
    the re-joined text. */
module CodeBlocks {
  import opened Results
  import opened Text
  import LineNumbers

  predicate AllBlank(lines: seq<string>) {
    forall i :: 0 <= i < |lines| ==> IsBlank(lines[i])
  }

  /** `while lines and not lines[0].strip(): lines.pop(0)` */
  function DropLeadingBlank(lines: seq<string>): (r: seq<string>)
    ensures |r| <= |lines| && r == lines[|lines| - |r|..]
    ensures AllBlank(lines[..|lines| - |r|])
    ensures r == [] || !IsBlank(r[0])
  {
    if lines != [] && IsBlank(lines[0]) then DropLeadingBlank(lines[1..]) else lines
  }

  /** `while lines and not lines[-1].strip(): lines.pop()` */
  function DropTrailingBlank(lines: seq<string>): (r: seq<string>)
    ensures |r| <= |lines| && r == lines[..|r|]
    ensures AllBlank(lines[|r|..])
    ensures r == [] || !IsBlank(r[|r| - 1])
  {
    if lines != [] && IsBlank(lines[|lines| - 1]) then DropTrailingBlank(lines[..|lines| - 1]) else lines
  }

  /** Both loops of scraper.py:191-194, in order. */
  function TrimBlankEdges(lines: seq<string>): (r: seq<string>)
    ensures r == [] || (!IsBlank(r[0]) && !IsBlank(r[|r| - 1]))
  {
    var t := DropLeadingBlank(lines);
    var r := DropTrailingBlank(t);
    assert r != [] ==> r[0] == t[0];
    r
  }

  /** Trimming keeps a contiguous run of the lines, cuts only blank lines,
      leaves non-blank lines at both ends, and leaves nothing exactly when
      every line was blank. */
  lemma TrimBlankEdgesSpec(lines: seq<string>)
    ensures exists a, b ::
              && 0 <= a <= b <= |lines| && TrimBlankEdges(lines) == lines[a..b]
              && AllBlank(lines[..a]) && AllBlank(lines[b..])
    ensures TrimBlankEdges(lines) != [] ==>
              !IsBlank(TrimBlankEdges(lines)[0]) && !IsBlank(TrimBlankEdges(lines)[|TrimBlankEdges(lines)| - 1])
    ensures TrimBlankEdges(lines) == [] <==> AllBlank(lines)
  {
    TrimmedSlice(lines);
    TrimmedEnds(lines);
    TrimmedEmptyIff(lines);
  }

  lemma TrimmedSlice(lines: seq<string>)
    ensures exists a, b ::
              && 0 <= a <= b <= |lines| && TrimBlankEdges(lines) == lines[a..b]
              && AllBlank(lines[..a]) && AllBlank(lines[b..])
  {
    var t := DropLeadingBlank(lines);
    SliceOfSlice(lines, t, DropTrailingBlank(t));
  }

  /** A prefix of a suffix, each cut off only blank lines, is a slice with
      blank lines on both sides. */
  lemma SliceOfSlice(lines: seq<string>, t: seq<string>, r: seq<string>)
    requires |t| <= |lines| && t == lines[|lines| - |t|..] && AllBlank(lines[..|lines| - |t|])
    requires |r| <= |t| && r == t[..|r|] && AllBlank(t[|r|..])
    ensures exists a, b ::
              && 0 <= a <= b <= |lines| && r == lines[a..b]
              && AllBlank(lines[..a]) && AllBlank(lines[b..])
  {
    var a := |lines| - |t|;
    var b := a + |r|;
    assert r == lines[a..b];
    assert lines[b..] == t[|r|..];
  }

  lemma TrimmedEnds(lines: seq<string>)
    ensures TrimBlankEdges(lines) != [] ==>
              !IsBlank(TrimBlankEdges(lines)[0]) && !IsBlank(TrimBlankEdges(lines)[|TrimBlankEdges(lines)| - 1])
  {
    var t := DropLeadingBlank(lines);
    var r := DropTrailingBlank(t);
    if r != [] {
      assert r[0] == t[0];
    }
  }

  lemma TrimmedEmptyIff(lines: seq<string>)
    ensures TrimBlankEdges(lines) == [] <==> AllBlank(lines)
  {
    var t := DropLeadingBlank(lines);
    var a := |lines| - |t|;
    var r := DropTrailingBlank(t);
    if r == [] {
      assert t == t[|r|..];
      assert t == [];
      assert lines == lines[..a];
    } else {
      assert !IsBlank(lines[a]) by {
        assert r[0] == t[0];
      }
    }
  }

  /** Some line holds a non-whitespace character. */
  predicate HasNonBlank(lines: seq<string>) {
    exists i :: 0 <= i < |lines| && !IsBlank(lines[i])
  }

  /** `min(len(line) - len(line.lstrip()) for line in lines if line.strip())`:
      the smallest indentation among the non-blank lines, which some
      non-blank line has exactly. */
  function MinIndent(lines: seq<string>): (k: nat)
    requires HasNonBlank(lines)
    ensures forall i :: 0 <= i < |lines| && !IsBlank(lines[i]) ==> k <= LeadingSpaces(lines[i])
    ensures exists i :: 0 <= i < |lines| && !IsBlank(lines[i]) && k == LeadingSpaces(lines[i])
  {
    var rest := lines[1..];
    if IsBlank(lines[0]) then
      assert forall i :: 1 <= i < |lines| ==> lines[i] == rest[i - 1];
      MinIndent(rest)
    else if !HasNonBlank(rest) then
      assert forall i :: 1 <= i < |lines| ==> lines[i] == rest[i - 1];
      LeadingSpaces(lines[0])
    else
      assert forall i :: 1 <= i < |lines| ==> lines[i] == rest[i - 1];
      var m := MinIndent(rest);
      if LeadingSpaces(lines[0]) <= m then LeadingSpaces(lines[0]) else m
  }

  /** `line[min_indent:] if line.strip() else ''` */
  function DedentLine(line: string, k: nat): string
    requires IsBlank(line) || k <= LeadingSpaces(line)
  {
    if IsBlank(line) then "" else line[k..]
  }

  /** The indentation `k` is no wider than that of any non-blank line. */
  predicate IndentFits(lines: seq<string>, k: nat) {
    forall i :: 0 <= i < |lines| && !IsBlank(lines[i]) ==> k <= LeadingSpaces(lines[i])
  }

  /** Dedenting by `k`: every blank line becomes empty, and every other line
      loses exactly its first `k` characters, which are whitespace. */
  function Dedent(lines: seq<string>, k: nat): (r: seq<string>)
    requires IndentFits(lines, k)
    ensures |r| == |lines|
    ensures forall i :: 0 <= i < |lines| && IsBlank(lines[i]) ==> r[i] == ""
    ensures forall i :: 0 <= i < |lines| && !IsBlank(lines[i]) ==>
              lines[i] == lines[i][..k] + r[i] && IsBlank(lines[i][..k])
  {
    var r := seq(|lines|, i requires 0 <= i < |lines| => DedentLine(lines[i], k));
    assert forall i :: 0 <= i < |lines| && !IsBlank(lines[i]) ==>
        lines[i] == lines[i][..k] + r[i] && IsBlank(lines[i][..k]) by {
      forall i | 0 <= i < |lines| && !IsBlank(lines[i])
        ensures lines[i] == lines[i][..k] + r[i] && IsBlank(lines[i][..k])
      {
        LeadingSpacesFacts(lines[i]);
        assert lines[i][..k] == lines[i][..LeadingSpaces(lines[i])][..k];
      }
    }
    r
  }

  /** Dedenting by the minimum indentation leaves some non-blank line that
      starts with a non-whitespace character: no narrower dedent exists. */
  lemma DedentByMinIsMaximal(lines: seq<string>)
    requires HasNonBlank(lines)
    ensures exists i :: 0 <= i < |lines| && !IsBlank(lines[i])
              && Dedent(lines, MinIndent(lines))[i] != ""
              && !IsSpace(Dedent(lines, MinIndent(lines))[i][0])
  {
    var k := MinIndent(lines);
    var i :| 0 <= i < |lines| && !IsBlank(lines[i]) && k == LeadingSpaces(lines[i]);
    LeadingSpacesFacts(lines[i]);
    var d := Dedent(lines, k);
    assert d[i] == lines[i][k..];
    assert d[i][0] == lines[i][k];
  }

  /** The lines the line-number pre-pass leaves: `code.splitlines()` after
      the three substitutions. */
  function CodeLines(code: string): seq<string>
  {
    SplitLines(LineNumbers.StripLineNumbers(code))
  }

  /** The dedented lines of a trimmed block, joined with `"\n"`. */
  function DedentedText(lines: seq<string>): string
    requires lines != [] && !IsBlank(lines[0])
  {
    assert HasNonBlank(lines) by {
      assert 0 < |lines| && !IsBlank(lines[0]);
    }
    Join(Dedent(lines, MinIndent(lines)), "\n")
  }

  /** `_clean_code_block(code)` (scraper.py:178-207). */
  function CleanCodeBlock(code: string): (r: string)
    ensures code == "" ==> r == ""
    ensures Stripped(r)
  {
    if code == "" then ""
    else
      var lines := TrimBlankEdges(CodeLines(code));
      if lines == [] then "" else Strip(DedentedText(lines))
  }

  /** A block that is nothing but a number is not blank, yet the
      trailing-number substitution removes all of it, so it cleans to the
      empty string. */
  lemma NumberOnlyBlockCleansToEmpty(code: string)
    requires code != [] && AllDigits(code)
    ensures !IsBlank(code)
    ensures CleanCodeBlock(code) == ""
  {
    assert !IsSpace(code[|code| - 1]);
    assert LineNumbers.SpaceRunBefore(code, |code|) == 0;
    assert LineNumbers.DigitRunBefore(code, |code|) == |code|;
    assert LineNumbers.TrailingNumberStart(code) == Some(0);
    assert LineNumbers.StripTrailingNumber(code) == "";
    assert LineNumbers.StripLineNumbers(code) == "";
    assert CodeLines(code) == [];
  }

  /** A cleaned block is empty exactly when the input was empty or no line
      survived the line-number pre-pass with anything but whitespace on it. */
  lemma CleanCodeBlockEmptyIff(code: string)
    ensures CleanCodeBlock(code) == "" <==> (code == "" || AllBlank(CodeLines(code)))
  {
    if code != "" {
      var lines := TrimBlankEdges(CodeLines(code));
      TrimmedEmptyIff(CodeLines(code));
      if lines != [] {
        DedentedTextIsNotBlank(lines);
        StripIsTheInnerSlice(DedentedText(lines));
      }
    }
  }

  /** The dedented text keeps a non-whitespace character. */
  lemma DedentedTextIsNotBlank(lines: seq<string>)
    requires lines != [] && !IsBlank(lines[0])
    ensures !IsBlank(DedentedText(lines))
  {
    assert HasNonBlank(lines) by {
      assert 0 < |lines| && !IsBlank(lines[0]);
    }
    DedentByMinIsMaximal(lines);
    var d := Dedent(lines, MinIndent(lines));
    var i :| 0 <= i < |lines| && !IsBlank(lines[i]) && d[i] != "" && !IsSpace(d[i][0]);
    JoinKeepsNonSpace(d, "\n", i);
  }

  /** A part that starts with a non-whitespace character keeps the joined
      text from being blank. */
  lemma JoinKeepsNonSpace(parts: seq<string>, sep: string, i: nat)
    requires i < |parts| && parts[i] != "" && !IsSpace(parts[i][0])
    ensures !IsBlank(Join(parts, sep))
  {
    JoinContainsPart(parts, sep, i);
    var joined := Join(parts, sep);
    var off: nat :| OccursAt(joined, parts[i], off);
    assert joined[off] == joined[off..off + |parts[i]|][0] == parts[i][0];
  }
}

module CodeBlocksExample {
  import opened Text
  import opened CodeBlocks
  import LineNumbers

  predicate NoDigits(s: string) {
    forall k :: 0 <= k < |s| ==> !IsDigit(s[k])
  }

  predicate NoLineBreaks(s: string) {
    forall k :: 0 <= k < |s| ==> !IsLineBreak(s[k])
  }

  /** Two lines that share the indentation `sp`, carry no digits and have
      no surrounding whitespace of their own are dedented to `a` and `b`. */
  lemma CleanTwoIndentedLines(sp: string, a: string, b: string)
    requires IsBlank(sp) && NoLineBreaks(sp) && NoDigits(sp)
    requires a != [] && Stripped(a) && NoLineBreaks(a) && NoDigits(a)
    requires b != [] && Stripped(b) && NoLineBreaks(b) && NoDigits(b)
    ensures CleanCodeBlock(sp + a + "\n" + sp + b) == a + "\n" + b
  {
    var l1 := sp + a;
    var l2 := sp + b;
    var code := sp + a + "\n" + sp + b;
    assert code == l1 + "\n" + l2;
    IndentedLine(sp, a);
    IndentedLine(sp, b);
    TwoPlainLines(l1, l2);
    DedentTwoLines(sp, a, b);
    JoinedStrippedIsStripped(a, b);
    CleanCodeBlockOfLines(code, [l1, l2]);
  }

  lemma IndentedLine(sp: string, a: string)
    requires IsBlank(sp) && NoLineBreaks(sp) && NoDigits(sp)
    requires a != [] && !IsSpace(a[0]) && NoLineBreaks(a) && NoDigits(a)
    ensures NoLineBreaks(sp + a) && NoDigits(sp + a) && !IsBlank(sp + a)
    ensures LeadingSpaces(sp + a) == |sp|
  {
    PlainConcat(sp, a);
    assert (sp + a)[|sp|] == a[0];
    LeadingSpacesOf(sp, a);
  }

  lemma PlainConcat(x: string, y: string)
    requires NoLineBreaks(x) && NoDigits(x) && NoLineBreaks(y) && NoDigits(y)
    ensures NoLineBreaks(x + y) && NoDigits(x + y)
  {
    assert forall k :: 0 <= k < |x| ==> (x + y)[k] == x[k];
    assert forall k :: |x| <= k < |x + y| ==> (x + y)[k] == y[k - |x|];
  }

  /** Two non-blank, digit-free lines joined by a newline come out of the
      pre-pass, the line split and the edge trimming as themselves. */
  lemma TwoPlainLines(l1: string, l2: string)
    requires NoLineBreaks(l1) && NoDigits(l1) && !IsBlank(l1)
    requires NoLineBreaks(l2) && NoDigits(l2) && !IsBlank(l2)
    ensures TrimBlankEdges(CodeLines(l1 + "\n" + l2)) == [l1, l2]
  {
    PlainTwoLinesPassPrePass(l1, l2);
    SplitTwoLines(l1, l2);
    assert CodeLines(l1 + "\n" + l2) == [l1, l2];
  }

  lemma CleanCodeBlockOfLines(code: string, lines: seq<string>)
    requires code != [] && lines != [] && !IsBlank(lines[0])
    requires TrimBlankEdges(CodeLines(code)) == lines
    ensures CleanCodeBlock(code) == Strip(DedentedText(lines))
  {
  }

  lemma DedentTwoLines(sp: string, a: string, b: string)
    requires a != [] && !IsSpace(a[0]) && b != [] && !IsSpace(b[0])
    requires LeadingSpaces(sp + a) == |sp| == LeadingSpaces(sp + b)
    ensures !IsBlank(sp + a)
    ensures DedentedText([sp + a, sp + b]) == a + "\n" + b
  {
    var lines := [sp + a, sp + b];
    assert lines[0][|sp|] == a[0] && lines[1][|sp|] == b[0];
    var k := MinIndent(lines);
    assert k == |sp|;
    var d := Dedent(lines, k);
    assert lines[0][k..] == a && lines[1][k..] == b;
    assert d[0] == a && d[1] == b;
    assert d == [a, b];
    assert Join(d, "\n") == a + "\n" + Join(d[1..], "\n");
    assert d[1..] == [b];
  }

  lemma JoinedStrippedIsStripped(a: string, b: string)
    requires a != [] && Stripped(a) && b != [] && Stripped(b)
    ensures Strip(a + "\n" + b) == a + "\n" + b
  {
    var s := a + "\n" + b;
    assert s[0] == a[0] && s[|s| - 1] == b[|b| - 1];
    StripOfStripped(s);
  }

  /** Two digit-free lines joined by one newline pass the line-number
      pre-pass unchanged. */
  lemma PlainTwoLinesPassPrePass(l1: string, l2: string)
    requires NoLineBreaks(l1) && NoDigits(l1)
    requires NoLineBreaks(l2) && NoDigits(l2)
    ensures LineNumbers.StripLineNumbers(l1 + "\n" + l2) == l1 + "\n" + l2
  {
    var code := l1 + "\n" + l2;
    assert forall k :: 0 <= k < |code| && k != |l1| ==> !IsLineBreak(code[k]) && !IsDigit(code[k]) by {
      forall k | 0 <= k < |code| && k != |l1|
        ensures !IsLineBreak(code[k]) && !IsDigit(code[k])
      {
        if k < |l1| { assert code[k] == l1[k]; } else { assert code[k] == l2[k - |l1| - 1]; }
      }
    }
    assert forall k :: 0 <= k < |code| ==> !LineNumbers.HasBlankLineAt(code, k);
    LineNumbers.StripLineNumbersKeepsPlainText(code);
  }

  /** Two lines indented by four spaces lose exactly that indentation. */
  lemma DedentExample(code: string)
    requires code == "    foo()\n    bar()"
    ensures CleanCodeBlock(code) == "foo()\nbar()"
  {
    var sp, a, b := "    ", "foo()", "bar()";
    assert sp + a + "\n" + sp + b == code;
    assert a + "\n" + b == "foo()\nbar()";
    CleanTwoIndentedLines(sp, a, b);
  }
}
