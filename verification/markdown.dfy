/** `DocumentationGenerator._generate_markdown`
    (api_doc_generator/generator.py:102-141): the scraped pages, in the
    order they were stored, rendered as one Markdown guide. The timestamp
    `time.strftime('%Y-%m-%d %H:%M:%S')` is a parameter. */
module Markdown {
  import opened Text
  import opened OrderedMaps
  import opened Scraper

  const Header: string := "# API Integration Guide\n"

  function StampLine(timestamp: string): string {
    "Generated on: " + timestamp + "\n"
  }

  /** The first two sections, as they read once joined. */
  function Intro(timestamp: string): string {
    Header + "\n" + StampLine(timestamp)
  }

  function TitleLine(title: string): string {
    "\n## " + title + "\n"
  }

  function SourceLine(url: string): string {
    "\nSource: [" + url + "](" + url + ")\n"
  }

  function ExampleLabel(i: nat): string {
    "\nExample " + NatToString(i) + ":\n"
  }

  function Fenced(sample: string): string {
    "```\n" + sample + "\n```\n"
  }

  /** The code examples of one page, numbered from `first`: a label and a
      fenced block per sample. */
  function ExampleSections(samples: seq<string>, first: nat): (r: seq<string>)
    ensures |r| == 2 * |samples|
  {
    if samples == [] then []
    else [ExampleLabel(first), Fenced(samples[0])] + ExampleSections(samples[1..], first + 1)
  }

  /** Sample `j` gets the label `Example first+j:` followed by its fenced
      block. */
  lemma {:induction false} ExampleSectionsAt(samples: seq<string>, first: nat, j: nat)
    requires j < |samples|
    ensures ExampleSections(samples, first)[2 * j] == ExampleLabel(first + j)
    ensures ExampleSections(samples, first)[2 * j + 1] == Fenced(samples[j])
    decreases j
  {
    var rest := ExampleSections(samples[1..], first + 1);
    assert ExampleSections(samples, first) == [ExampleLabel(first), Fenced(samples[0])] + rest;
    if j > 0 {
      ExampleSectionsAt(samples[1..], first + 1, j - 1);
      assert samples[1..][j - 1] == samples[j];
    }
  }

  /** The headings of the content, the examples and the related links. */
  const ContentHeading: string := "\n### Content\n"
  const ExamplesHeading: string := "\n### Code Examples\n"
  const LinksHeading: string := "\n### Related Links\n"

  function DescriptionLine(description: string): string {
    "\n" + description + "\n"
  }

  /** `- [text](link)` for one related link. */
  function Bullet(link: Link): string {
    "- [" + link.text + "](" + link.target + ")\n"
  }

  /** One bullet per related link, in the links' order. */
  function LinkLines(links: seq<Link>): (r: seq<string>)
    ensures |r| == |links|
  {
    seq(|links|, j requires 0 <= j < |links| => Bullet(links[j]))
  }

  /** The sections before the code examples. */
  function HeadSections(url: string, rec: PageRecord): seq<string> {
    [TitleLine(rec.title)]
    + (if rec.description != "" then [DescriptionLine(rec.description)] else [])
    + [SourceLine(url)]
    + (if rec.content != "" then [ContentHeading, rec.content] else [])
  }

  function ExampleBlock(rec: PageRecord): seq<string> {
    if rec.codeSamples != [] then [ExamplesHeading] + ExampleSections(rec.codeSamples, 1) else []
  }

  function LinkBlock(rec: PageRecord): seq<string> {
    if rec.links != [] then [LinksHeading] + LinkLines(rec.links) else []
  }

  /** The sections one page contributes. The title always comes from the
      record (the scraper stores one for every page, `''` when the reader
      sent none); the description, content, examples and links only when
      non-empty. */
  function PageSections(url: string, rec: PageRecord): seq<string> {
    HeadSections(url, rec) + ExampleBlock(rec) + LinkBlock(rec)
  }

  /** Where the source line and the first example label sit among a
      page's sections. */
  function SourceIndex(rec: PageRecord): nat {
    if rec.description != "" then 2 else 1
  }

  function ExamplesIndex(rec: PageRecord): nat {
    SourceIndex(rec) + 1 + (if rec.content != "" then 2 else 0) + 1
  }

  /** How many sections a page contributes: two always, one for a
      description, two for content, a heading plus two per code sample,
      and a heading plus one per link. */
  function PageLength(rec: PageRecord): nat {
    2
    + (if rec.description != "" then 1 else 0)
    + (if rec.content != "" then 2 else 0)
    + (if rec.codeSamples != [] then 1 + 2 * |rec.codeSamples| else 0)
    + (if rec.links != [] then 1 + |rec.links| else 0)
  }

  lemma IndexFront<T>(a: seq<T>, b: seq<T>, c: seq<T>, k: nat)
    requires k < |a|
    ensures (a + b + c)[k] == a[k]
  {
  }

  lemma IndexMiddle<T>(a: seq<T>, b: seq<T>, c: seq<T>, k: nat)
    requires k < |b|
    ensures |a| + k < |a + b + c| && (a + b + c)[|a| + k] == b[k]
  {
  }

  lemma HeadLayout(url: string, rec: PageRecord)
    ensures |HeadSections(url, rec)| == ExamplesIndex(rec) - 1
    ensures HeadSections(url, rec)[0] == TitleLine(rec.title)
    ensures rec.description != "" ==> HeadSections(url, rec)[1] == DescriptionLine(rec.description)
    ensures HeadSections(url, rec)[SourceIndex(rec)] == SourceLine(url)
    ensures rec.content != "" ==>
              && HeadSections(url, rec)[SourceIndex(rec) + 1] == ContentHeading
              && HeadSections(url, rec)[SourceIndex(rec) + 2] == rec.content
  {
  }

  /** A page has `PageLength` sections, the first of them the title. */
  lemma PageLengthIs(url: string, rec: PageRecord)
    ensures |PageSections(url, rec)| == PageLength(rec)
    ensures PageSections(url, rec)[0] == TitleLine(rec.title)
  {
    HeadLayout(url, rec);
    IndexFront(HeadSections(url, rec), ExampleBlock(rec), LinkBlock(rec), 0);
  }

  /** The head of a page: the title, the description when there is one,
      the source line, and the content under its heading when there is
      some. */
  lemma HeadAt(url: string, rec: PageRecord, k: nat)
    requires k < ExamplesIndex(rec) - 1
    ensures k < |PageSections(url, rec)|
    ensures PageSections(url, rec)[k] == HeadSections(url, rec)[k]
  {
    HeadLayout(url, rec);
    PageLengthIs(url, rec);
    IndexFront(HeadSections(url, rec), ExampleBlock(rec), LinkBlock(rec), k);
  }

  /** The `j`-th code sample sits, labelled `Example j+1:`, two sections
      per sample after the examples heading. */
  lemma ExampleAt(url: string, rec: PageRecord, j: nat)
    requires j < |rec.codeSamples|
    ensures ExamplesIndex(rec) + 2 * j + 1 < |PageSections(url, rec)|
    ensures PageSections(url, rec)[ExamplesIndex(rec) - 1] == ExamplesHeading
    ensures PageSections(url, rec)[ExamplesIndex(rec) + 2 * j] == ExampleLabel(j + 1)
    ensures PageSections(url, rec)[ExamplesIndex(rec) + 2 * j + 1] == Fenced(rec.codeSamples[j])
  {
    var h := HeadSections(url, rec);
    var e := ExampleBlock(rec);
    var l := LinkBlock(rec);
    HeadLayout(url, rec);
    ExampleSectionsAt(rec.codeSamples, 1, j);
    IndexMiddle(h, e, l, 0);
    IndexMiddle(h, e, l, 1 + 2 * j);
    IndexMiddle(h, e, l, 2 + 2 * j);
  }

  /** The `j`-th related link is a bullet among the last sections, after
      the links heading. */
  lemma LinkAt(url: string, rec: PageRecord, j: nat)
    requires j < |rec.links|
    ensures PageLength(rec) == |PageSections(url, rec)|
    ensures PageSections(url, rec)[PageLength(rec) - |rec.links| - 1] == LinksHeading
    ensures PageSections(url, rec)[PageLength(rec) - |rec.links| + j] == Bullet(rec.links[j])
  {
    var he := HeadSections(url, rec) + ExampleBlock(rec);
    var l := LinkBlock(rec);
    PageLengthIs(url, rec);
    assert PageSections(url, rec) == he + l + [];
    IndexMiddle(he, l, [], 0);
    IndexMiddle(he, l, [], 1 + j);
  }

  /** The layout of a page's sections, position by position: the title,
      the description when there is one, the source line, the content
      under its heading, the numbered examples under theirs, and the link
      bullets under theirs, each only when non-empty. */
  lemma PageLayout(url: string, rec: PageRecord)
    ensures |PageSections(url, rec)| == PageLength(rec)
    ensures PageSections(url, rec)[0] == TitleLine(rec.title)
    ensures rec.description != "" ==> PageSections(url, rec)[1] == DescriptionLine(rec.description)
    ensures PageSections(url, rec)[SourceIndex(rec)] == SourceLine(url)
    ensures rec.content != "" ==>
              && PageSections(url, rec)[SourceIndex(rec) + 1] == ContentHeading
              && PageSections(url, rec)[SourceIndex(rec) + 2] == rec.content
    ensures rec.codeSamples != [] ==>
              && PageSections(url, rec)[ExamplesIndex(rec) - 1] == ExamplesHeading
              && ExamplesIndex(rec) + 2 * |rec.codeSamples| <= PageLength(rec)
    ensures forall j :: 0 <= j < |rec.codeSamples| ==>
              && PageSections(url, rec)[ExamplesIndex(rec) + 2 * j] == ExampleLabel(j + 1)
              && PageSections(url, rec)[ExamplesIndex(rec) + 2 * j + 1] == Fenced(rec.codeSamples[j])
    ensures rec.links != [] ==> PageSections(url, rec)[PageLength(rec) - |rec.links| - 1] == LinksHeading
    ensures forall j :: 0 <= j < |rec.links| ==>
              PageSections(url, rec)[PageLength(rec) - |rec.links| + j] == Bullet(rec.links[j])
  {
    HeadLayout(url, rec);
    PageLengthIs(url, rec);
    if rec.description != "" {
      HeadAt(url, rec, 1);
    }
    HeadAt(url, rec, SourceIndex(rec));
    if rec.content != "" {
      HeadAt(url, rec, SourceIndex(rec) + 1);
      HeadAt(url, rec, SourceIndex(rec) + 2);
    }
    forall j | 0 <= j < |rec.codeSamples|
      ensures && PageSections(url, rec)[ExamplesIndex(rec) + 2 * j] == ExampleLabel(j + 1)
              && PageSections(url, rec)[ExamplesIndex(rec) + 2 * j + 1] == Fenced(rec.codeSamples[j])
    {
      ExampleAt(url, rec, j);
    }
    if rec.codeSamples != [] {
      ExampleAt(url, rec, |rec.codeSamples| - 1);
    }
    forall j | 0 <= j < |rec.links|
      ensures PageSections(url, rec)[PageLength(rec) - |rec.links| + j] == Bullet(rec.links[j])
    {
      LinkAt(url, rec, j);
    }
    if rec.links != [] {
      LinkAt(url, rec, 0);
    }
  }

  /** The blocks concatenated, in order. */
  function Flatten<T>(blocks: seq<seq<T>>): seq<T> {
    if blocks == [] then [] else blocks[0] + Flatten(blocks[1..])
  }

  lemma {:induction false} FlattenAppend<T>(a: seq<seq<T>>, b: seq<seq<T>>)
    ensures Flatten(a + b) == Flatten(a) + Flatten(b)
  {
    if a == [] {
      assert a + b == b;
    } else {
      assert (a + b)[0] == a[0];
      assert (a + b)[1..] == a[1..] + b;
      FlattenAppend(a[1..], b);
    }
  }

  /** Block `i` sits whole right after the blocks before it. */
  lemma {:induction false} FlattenAt<T>(blocks: seq<seq<T>>, i: nat)
    requires i < |blocks|
    ensures Flatten(blocks) == Flatten(blocks[..i]) + blocks[i] + Flatten(blocks[i + 1..])
    ensures Flatten(blocks[..i + 1]) == Flatten(blocks[..i]) + blocks[i]
  {
    assert blocks == blocks[..i] + ([blocks[i]] + blocks[i + 1..]);
    FlattenAppend(blocks[..i], [blocks[i]] + blocks[i + 1..]);
    assert ([blocks[i]] + blocks[i + 1..])[1..] == blocks[i + 1..];
    assert blocks[..i + 1] == blocks[..i] + [blocks[i]];
    FlattenAppend(blocks[..i], [blocks[i]]);
    assert [blocks[i]][1..] == [];
  }

  /** Element `k` of block `i` sits at its offset past the elements of the
      blocks before it. */
  lemma FlattenIndex<T>(prefix: seq<T>, blocks: seq<seq<T>>, i: nat, k: nat)
    requires i < |blocks| && k < |blocks[i]|
    ensures |prefix| + |Flatten(blocks[..i])| + k < |prefix + Flatten(blocks)|
    ensures (prefix + Flatten(blocks))[|prefix| + |Flatten(blocks[..i])| + k] == blocks[i][k]
  {
    var before := Flatten(blocks[..i]);
    var after := Flatten(blocks[i + 1..]);
    FlattenAt(blocks, i);
    assert prefix + Flatten(blocks) == (prefix + before) + blocks[i] + after;
    IndexMiddle(prefix + before, blocks[i], after, k);
  }

  /** The sections of each stored page, in the dictionary's order. */
  function PageBlocks(docs: OrderedMap<string, PageRecord>): (r: seq<seq<string>>)
    requires docs.Valid()
    ensures |r| == |docs.keys|
  {
    seq(|docs.keys|, i requires 0 <= i < |docs.keys| => PageSections(docs.keys[i], docs.entries[docs.keys[i]]))
  }

  function Sections(docs: OrderedMap<string, PageRecord>, timestamp: string): seq<string>
    requires docs.Valid()
  {
    [Header, StampLine(timestamp)] + Flatten(PageBlocks(docs))
  }

  /** The guide: every section, joined with a newline. */
  function GenerateMarkdown(docs: OrderedMap<string, PageRecord>, timestamp: string): (r: string)
    requires docs.Valid()
    ensures |r| >= |Intro(timestamp)| && r[..|Intro(timestamp)|] == Intro(timestamp)
    ensures docs.keys == [] ==> r == Intro(timestamp)
  {
    var parts := Sections(docs, timestamp);
    assert parts[1..] == [StampLine(timestamp)] + Flatten(PageBlocks(docs));
    JoinStartsWithFirst(parts[1..], "\n");
    Join(parts, "\n")
  }

  /** Where page `i`'s title line sits in the list of sections. */
  function PageIndex(docs: OrderedMap<string, PageRecord>, i: nat): nat
    requires docs.Valid() && i <= |docs.keys|
  {
    2 + |Flatten(PageBlocks(docs)[..i])|
  }

  /** Section `k` of page `i` sits at `PageIndex(i) + k` in the list of
      sections. */
  lemma SectionAt(docs: OrderedMap<string, PageRecord>, timestamp: string, i: nat, k: nat)
    requires docs.Valid() && i < |docs.keys|
    requires k < |PageSections(docs.keys[i], docs.entries[docs.keys[i]])|
    ensures PageIndex(docs, i) + k < |Sections(docs, timestamp)|
    ensures Sections(docs, timestamp)[PageIndex(docs, i) + k] == PageSections(docs.keys[i], docs.entries[docs.keys[i]])[k]
  {
    var blocks := PageBlocks(docs);
    assert blocks[i] == PageSections(docs.keys[i], docs.entries[docs.keys[i]]);
    BlockSectionAt(docs, timestamp, i, k);
  }

  /** The same, for the blocks of sections the pages contribute. */
  lemma BlockSectionAt(docs: OrderedMap<string, PageRecord>, timestamp: string, i: nat, k: nat)
    requires docs.Valid() && i < |docs.keys| && k < |PageBlocks(docs)[i]|
    ensures PageIndex(docs, i) + k < |Sections(docs, timestamp)|
    ensures Sections(docs, timestamp)[PageIndex(docs, i) + k] == PageBlocks(docs)[i][k]
  {
    FlattenIndex([Header, StampLine(timestamp)], PageBlocks(docs), i, k);
  }

  /** Each page starts after the one before it. */
  lemma PageIndexGrows(docs: OrderedMap<string, PageRecord>, i: nat)
    requires docs.Valid() && i < |docs.keys|
    ensures PageIndex(docs, i) + 2 <= PageIndex(docs, i + 1)
  {
    var blocks := PageBlocks(docs);
    FlattenAt(blocks, i);
    PageLengthIs(docs.keys[i], docs.entries[docs.keys[i]]);
  }

  /** Every section of every stored page reaches the guide. */
  lemma PageSectionInGuide(docs: OrderedMap<string, PageRecord>, timestamp: string, i: nat, k: nat, section: string)
    requires docs.Valid() && i < |docs.keys|
    requires k < |PageSections(docs.keys[i], docs.entries[docs.keys[i]])|
    requires PageSections(docs.keys[i], docs.entries[docs.keys[i]])[k] == section
    ensures Contains(GenerateMarkdown(docs, timestamp), section)
  {
    SectionAt(docs, timestamp, i, k);
    JoinContainsPart(Sections(docs, timestamp), "\n", PageIndex(docs, i) + k);
  }

  /** Every stored page appears in the guide under its own title and with
      a link to its URL. */
  lemma EveryPageIsListed(docs: OrderedMap<string, PageRecord>, timestamp: string, i: nat)
    requires docs.Valid() && i < |docs.keys|
    ensures Contains(GenerateMarkdown(docs, timestamp), TitleLine(docs.entries[docs.keys[i]].title))
    ensures Contains(GenerateMarkdown(docs, timestamp), SourceLine(docs.keys[i]))
  {
    var url := docs.keys[i];
    var rec := docs.entries[url];
    PageLengthIs(url, rec);
    HeadLayout(url, rec);
    HeadAt(url, rec, SourceIndex(rec));
    PageSectionInGuide(docs, timestamp, i, 0, TitleLine(rec.title));
    PageSectionInGuide(docs, timestamp, i, SourceIndex(rec), SourceLine(url));
  }

  /** The `n`-th code example of a page is labelled `Example n:` and its
      sample appears in a fenced block. */
  lemma ExamplesAreNumberedFromOne(docs: OrderedMap<string, PageRecord>, timestamp: string, i: nat, n: nat)
    requires docs.Valid() && i < |docs.keys|
    requires 1 <= n <= |docs.entries[docs.keys[i]].codeSamples|
    ensures Contains(GenerateMarkdown(docs, timestamp), ExampleLabel(n))
    ensures Contains(GenerateMarkdown(docs, timestamp), Fenced(docs.entries[docs.keys[i]].codeSamples[n - 1]))
  {
    ExampleInGuide(docs, timestamp, i, n - 1, 0);
    ExampleInGuide(docs, timestamp, i, n - 1, 1);
  }

  /** Section `d` (0 for the label, 1 for the fenced sample) of the `j`-th
      code example of page `i` reaches the guide. */
  lemma ExampleInGuide(docs: OrderedMap<string, PageRecord>, timestamp: string, i: nat, j: nat, d: nat)
    requires docs.Valid() && i < |docs.keys|
    requires j < |docs.entries[docs.keys[i]].codeSamples| && d <= 1
    ensures d == 0 ==> Contains(GenerateMarkdown(docs, timestamp), ExampleLabel(j + 1))
    ensures d == 1 ==> Contains(GenerateMarkdown(docs, timestamp), Fenced(docs.entries[docs.keys[i]].codeSamples[j]))
  {
    var url := docs.keys[i];
    var rec := docs.entries[url];
    ExampleAt(url, rec, j);
    if d == 0 {
      PageSectionInGuide(docs, timestamp, i, ExamplesIndex(rec) + 2 * j, ExampleLabel(j + 1));
    } else {
      PageSectionInGuide(docs, timestamp, i, ExamplesIndex(rec) + 2 * j + 1, Fenced(rec.codeSamples[j]));
    }
  }

  /** Pages are rendered in the order they were stored: page `i`'s
      title section comes before page `j`'s whenever `i < j`. */
  lemma {:induction false} PagesInStoredOrder(docs: OrderedMap<string, PageRecord>, timestamp: string, i: nat, j: nat)
    requires docs.Valid() && i < j < |docs.keys|
    ensures PageIndex(docs, i) < PageIndex(docs, j) < |Sections(docs, timestamp)|
    ensures Sections(docs, timestamp)[PageIndex(docs, i)] == TitleLine(docs.entries[docs.keys[i]].title)
    ensures Sections(docs, timestamp)[PageIndex(docs, j)] == TitleLine(docs.entries[docs.keys[j]].title)
    decreases j - i
  {
    PageLengthIs(docs.keys[i], docs.entries[docs.keys[i]]);
    PageLengthIs(docs.keys[j], docs.entries[docs.keys[j]]);
    SectionAt(docs, timestamp, i, 0);
    SectionAt(docs, timestamp, j, 0);
    PageIndexGrows(docs, i);
    if i + 1 < j {
      PagesInStoredOrder(docs, timestamp, i + 1, j);
    }
  }
}
