/** The two markdown renderers of `clawdbot-integration/journal-scout.js`
    (`generateHealthReport`, `generateBusinessReport`). They differ only in the
    heading, the count sentence and the business renderer's citation suffix, so one
    method with a category parameter models both. The date and `DAYS_BACK` arrive as
    parameters; the lines are pushed into a list and joined with newlines. */
module JournalRender {
  import opened Text
  import JournalScout

  type Paper = JournalScout.Paper

  datatype Category = Health | Business

  const EmDash := "\U{2014}"

  function CategoryTitle(c: Category): string {
    match c
    case Health => "Health & Longevity"
    case Business => "Business & Contrarian Ideas"
  }

  /** The text of the report's `# ` heading. */
  function HeadingText(c: Category, date: string): string {
    CategoryTitle(c) + " " + EmDash + " " + date
  }

  function TitleLine(c: Category, date: string): string {
    "# " + HeadingText(c, date)
  }

  /** The words between the paper count and `DAYS_BACK` in the count sentence; the
      database each category is drawn from is named in it. */
  function CountPhrase(c: Category): string {
    match c
    case Health => " papers on supplements, lifestyle, " + "and longevity from " + "PubMed" + " (last "
    case Business => " papers on unconventional business " + "strategies from " + "Semantic Scholar" + " (last "
  }

  /** The count sentence. */
  function CountLine(c: Category, n: nat, daysBack: int): string {
    NatToString(n) + CountPhrase(c) + IntToString(daysBack) + " days)."
  }

  /** `**journal** | authors | pubDate` */
  function BaseMetaLine(p: Paper): string {
    "**" + p.journal + "** | " + p.authors + " | " + p.pubDate
  }

  /** The business renderer appends the citation count when it is not 0 (falsy). */
  function MetaLine(c: Category, p: Paper): string {
    BaseMetaLine(p) + (if c == Business && p.citations != 0 then " | " + NatToString(p.citations) + " citations" else "")
  }

  function LinkLine(p: Paper): string {
    "**Link:** " + p.doi
  }

  function HeaderLines(c: Category, n: nat, date: string, daysBack: int): seq<string> {
    [TitleLine(c, date), "", CountLine(c, n, daysBack), ""]
  }

  /** The nine lines one paper contributes. */
  function PaperLines(c: Category, p: Paper): seq<string> {
    ["### " + p.title, "", MetaLine(c, p), LinkLine(p), "", p.abstractText, "", "---", ""]
  }

  function PaperLinesOf(c: Category): Paper -> seq<string> {
    p => PaperLines(c, p)
  }

  /** Every line of a report, in order. */
  function ReportLines(c: Category, papers: seq<Paper>, date: string, daysBack: int): seq<string> {
    HeaderLines(c, |papers|, date, daysBack) + ConcatMap(papers, PaperLinesOf(c))
  }

  /** `generateHealthReport` (Health) and `generateBusinessReport` (Business): push the
      header lines, then nine lines per paper, and join the list with newlines. */
  method GenerateReport(c: Category, papers: seq<Paper>, date: string, daysBack: int) returns (report: string)
    ensures report == Join(ReportLines(c, papers, date, daysBack), "\n")
  {
    var lines: seq<string> := [];
    lines := lines + [TitleLine(c, date)];
    lines := lines + [""];
    lines := lines + [CountLine(c, |papers|, daysBack)];
    lines := lines + [""];
    PushFour([], TitleLine(c, date), "", CountLine(c, |papers|, daysBack), "");
    for i := 0 to |papers|
      invariant lines == HeaderLines(c, |papers|, date, daysBack) + ConcatMap(papers[..i], PaperLinesOf(c))
    {
      var paper := papers[i];
      var before := lines;
      lines := lines + ["### " + paper.title];
      lines := lines + [""];
      lines := lines + [MetaLine(c, paper)];
      lines := lines + [LinkLine(paper)];
      lines := lines + [""];
      lines := lines + [paper.abstractText];
      lines := lines + [""];
      lines := lines + ["---"];
      lines := lines + [""];
      PushNine(before, "### " + paper.title, "", MetaLine(c, paper), LinkLine(paper), "", paper.abstractText, "", "---", "");
      ReportLinesStep(c, papers, date, daysBack, i);
    }
    TakeAll(papers);
    report := Join(lines, "\n");
  }

  /** The lines of one more paper extend the lines rendered so far. */
  lemma ReportLinesStep(c: Category, papers: seq<Paper>, date: string, daysBack: int, i: nat)
    requires i < |papers|
    ensures HeaderLines(c, |papers|, date, daysBack) + ConcatMap(papers[..i], PaperLinesOf(c)) + PaperLines(c, papers[i])
      == HeaderLines(c, |papers|, date, daysBack) + ConcatMap(papers[..i + 1], PaperLinesOf(c))
  {
    ConcatMapSnoc(papers[..i], papers[i], PaperLinesOf(c));
    TakeSnoc(papers, i);
  }

  /** Four pushes append the four values in order. */
  lemma PushFour<T>(b: seq<T>, x0: T, x1: T, x2: T, x3: T)
    ensures b + [x0] + [x1] + [x2] + [x3] == b + [x0, x1, x2, x3]
  { }

  /** Nine pushes append the nine values in order. */
  lemma PushNine<T>(b: seq<T>, x0: T, x1: T, x2: T, x3: T, x4: T, x5: T, x6: T, x7: T, x8: T)
    ensures b + [x0] + [x1] + [x2] + [x3] + [x4] + [x5] + [x6] + [x7] + [x8]
      == b + [x0, x1, x2, x3, x4, x5, x6, x7, x8]
  { }

  // ---------------------------------------------------------------------------
  // Properties of the rendering

  /** Four header lines and nine lines per paper. */
  lemma ReportLineCount(c: Category, papers: seq<Paper>, date: string, daysBack: int)
    ensures |ReportLines(c, papers, date, daysBack)| == 4 + 9 * |papers|
  {
    ConcatMapLength(papers, PaperLinesOf(c), 9);
  }

  /** The report opens with the dated category heading, a blank line, the count
      sentence naming how many papers follow, and a blank line. */
  lemma ReportHeader(c: Category, papers: seq<Paper>, date: string, daysBack: int)
    ensures var lines := ReportLines(c, papers, date, daysBack);
      |lines| >= 4 && lines[0] == "# " + CategoryTitle(c) + " \U{2014} " + date && lines[1] == ""
      && lines[2] == CountLine(c, |papers|, daysBack) && lines[3] == ""
    ensures StartsWith(Join(ReportLines(c, papers, date, daysBack), "\n"), TitleLine(c, date) + "\n")
  {
    var lines := ReportLines(c, papers, date, daysBack);
    ReportLinesHead(c, papers, date, daysBack);
    TitleLineText(c, date);
    JoinHead(lines, "\n");
    PrefixOfAppend(TitleLine(c, date) + "\n", Join(lines[1..], "\n"));
  }

  lemma TitleLineText(c: Category, date: string)
    ensures TitleLine(c, date) == "# " + CategoryTitle(c) + " \U{2014} " + date
  {
    var t := CategoryTitle(c);
    assert " " + EmDash + " " == " \U{2014} ";
  }

  /** The four header lines come first. */
  lemma ReportLinesHead(c: Category, papers: seq<Paper>, date: string, daysBack: int)
    ensures var lines := ReportLines(c, papers, date, daysBack);
      |lines| >= 4 && lines[0] == TitleLine(c, date) && lines[1] == ""
      && lines[2] == CountLine(c, |papers|, daysBack) && lines[3] == ""
  {
    var h := HeaderLines(c, |papers|, date, daysBack);
    var lines := ReportLines(c, papers, date, daysBack);
    assert lines == h + ConcatMap(papers, PaperLinesOf(c));
    assert lines[..4] == h;
  }

  lemma PrefixOfAppend(a: string, b: string)
    ensures StartsWith(a + b, a)
  {
    assert (a + b)[..|a|] == a;
  }

  /** Paper `i` occupies lines 4 + 9i to 4 + 9i + 8, in input order: its `### ` title
      line first and its `---` separator last but one (the nine lines of `PaperLines`). */
  lemma PaperBlock(c: Category, papers: seq<Paper>, date: string, daysBack: int, i: nat)
    requires i < |papers|
    ensures |ReportLines(c, papers, date, daysBack)| == 4 + 9 * |papers|
    ensures ReportLines(c, papers, date, daysBack)[4 + 9 * i..4 + 9 * i + 9] == PaperLines(c, papers[i])
  {
    var f := PaperLinesOf(c);
    assert ReportLines(c, papers, date, daysBack) == HeaderLines(c, |papers|, date, daysBack) + ConcatMap(papers, f);
    BlockAt(HeaderLines(c, |papers|, date, daysBack), papers, f, 9, i);
  }

  lemma MulStep(w: nat, i: nat, n: nat)
    requires i < n
    ensures w * i + w <= w * n
  {
    var d: nat := n - i - 1;
    assert w * n == w * i + w + w * d;
  }

  /** With blocks of a fixed width after a header, block `i` sits at its offset. */
  lemma BlockAt<T, U>(h: seq<U>, xs: seq<T>, f: T -> seq<U>, w: nat, i: nat)
    requires i < |xs| && forall x :: |f(x)| == w
    ensures |h + ConcatMap(xs, f)| == |h| + w * |xs|
    ensures var o := |h| + w * i; o + w <= |h + ConcatMap(xs, f)| && (h + ConcatMap(xs, f))[o..o + w] == f(xs[i])
  {
    MulStep(w, i, |xs|);
    ConcatMapLength(xs, f, w);
    ConcatMapLength(xs[..i], f, w);
    ConcatMapSplitAt(xs, f, i);
    SliceOfMiddle(h, ConcatMap(xs[..i], f), f(xs[i]), ConcatMap(xs[i + 1..], f));
  }

  /** In `h + (a + b + c)`, the part `b` starts after `h` and `a`. */
  lemma SliceOfMiddle<T>(h: seq<T>, a: seq<T>, b: seq<T>, c: seq<T>)
    ensures (h + (a + b + c))[|h| + |a|..|h| + |a| + |b|] == b
  {
    var s := h + (a + b + c);
    assert forall k :: 0 <= k < |b| ==> s[|h| + |a| + k] == b[k];
  }

  /** Only the business renderer prints citations, and only a non-zero count. */
  lemma CitationSuffix(c: Category, p: Paper)
    ensures c == Health || p.citations == 0 ==> MetaLine(c, p) == BaseMetaLine(p)
    ensures c == Business && p.citations != 0 ==>
      MetaLine(c, p) == BaseMetaLine(p) + " | " + NatToString(p.citations) + " citations"
    ensures c == Business && p.citations != 0 ==> DigitsValue(NatToString(p.citations)) == p.citations
  {
    DigitsValueOfNatToString(p.citations);
  }
}
