/** The markdown half of the report parser in `clawdbot-integration/sync-to-tracker.js`
    (`parseMarkdownReport`): the report title, the source classification, the declared
    item count, the split into heading-delimited sections, and the section loop that
    turns sections into opportunity candidates behind a one-way stop latch.

    Every regular expression of the source is written out as a scanner that follows the
    backtracking order of JavaScript's matcher (greedy quantifiers give back one
    character at a time, the leftmost start position wins). */
module ReportParser {
  import opened Text

  datatype Source = Journal | Podcast | Discord | Twitter

  /** The four priority tiers an opportunity can carry. */
  datatype Tier = BuildNow | Backlog | Monitor | Skip

  datatype Opportunity = Opportunity(title: string, description: string, source: Source, priority: Tier)

  datatype MarkdownReport = MarkdownReport(
    title: string,
    content: string,
    source: Source,
    tweetCount: Option<nat>,
    opportunities: seq<Opportunity>)

  const DefaultTitle := "Scout Report"

  /** A section body must be longer than this to become a candidate. */
  const MinBodyLength := 20

  // ---------------------------------------------------------------------------
  // Title: the first line that starts with "# "

  /** The index of the first line that starts with "# ", if any (`lines.find`). */
  function FirstTitleLine(lines: seq<string>, from: nat): (r: Option<nat>)
    decreases |lines| - from
    ensures r.Some? ==> from <= r.value < |lines| && StartsWith(lines[r.value], "# ")
    ensures r.Some? ==> forall j :: from <= j < r.value ==> !StartsWith(lines[j], "# ")
    ensures r.None? ==> forall j :: from <= j < |lines| ==> !StartsWith(lines[j], "# ")
  {
    if from >= |lines| then None
    else if StartsWith(lines[from], "# ") then Some(from)
    else FirstTitleLine(lines, from + 1)
  }

  /** `line.replace(/^#+\s*\/, '').trim()`. */
  function TitleText(line: string): string {
    var h := RunOf(line, '#', 0);
    Trim(line[SkipSpaces(line, h)..])
  }

  function ReportTitle(content: string): (title: string)
    ensures (forall l :: l in Split(content, "\n") ==> !StartsWith(l, "# ")) ==> title == DefaultTitle
  {
    var lines := Split(content, "\n");
    match FirstTitleLine(lines, 0)
    case None => DefaultTitle
    case Some(k) => TitleText(lines[k])
  }

  /** A first line of the form "# text" gives the title `text`, trimmed, whatever follows. */
  lemma TitleOfFirstLine(line: string, rest: string)
    requires StartsWith(line, "# ") && NoChar(line, '\n')
    ensures ReportTitle(line + "\n" + rest) == TitleText(line)
  {
    assert !Contains(line + "\n"[..0], "\n") by {
      assert line + "\n"[..0] == line;
      forall j | 0 <= j <= |line| - 1 ensures !At(line, "\n", j) {
        assert line[j..j + 1] == [line[j]];
      }
    }
    SplitFirst(line, "\n", rest);
  }

  /** For a line "# text", the title is `text` trimmed. */
  lemma TitleTextOfHeading(text: string)
    ensures TitleText("# " + text) == Trim(text)
  {
    var line := "# " + text;
    assert RunOf(line, '#', 1) == 1;
    var w := SkipSpaces(line, 1);
    TrimDropSpaces(line[1..], w - 1);
    assert line[1..][w - 1..] == line[w..];
    assert line[1..] == " " + text;
    TrimDropSpaces(" " + text, 1);
    assert (" " + text)[1..] == text;
  }

  // ---------------------------------------------------------------------------
  // Source classification: journal > podcast > discord > twitter

  /** `&&` binds tighter than `||`: "longevity" counts only together with "paper". */
  predicate JournalTerms(content: string) {
    ContainsCI(content, "journal") || ContainsCI(content, "pubmed")
    || ContainsCI(content, "semantic scholar") || ContainsCI(content, "doi:")
    || (ContainsCI(content, "longevity") && ContainsCI(content, "paper"))
  }

  predicate PodcastTerms(content: string) {
    ContainsCI(content, "podcast") || ContainsCI(content, "transcript")
  }

  function ClassifySource(content: string): Source {
    if JournalTerms(content) then Journal
    else if PodcastTerms(content) then Podcast
    else if ContainsCI(content, "discord") then Discord
    else Twitter
  }

  /** Journal terms outrank every other platform a report mentions. */
  lemma JournalOutranks(content: string)
    requires ContainsCI(content, "pubmed") || ContainsCI(content, "journal") || ContainsCI(content, "semantic scholar")
    ensures ClassifySource(content) == Journal
  { }

  /** Each tier of the classification holds exactly when no earlier tier's terms occur. */
  lemma ClassificationTiers(content: string)
    ensures ClassifySource(content) == Podcast <==> !JournalTerms(content) && PodcastTerms(content)
    ensures ClassifySource(content) == Discord <==> !JournalTerms(content) && !PodcastTerms(content) && ContainsCI(content, "discord")
    ensures ClassifySource(content) == Twitter <==> !JournalTerms(content) && !PodcastTerms(content) && !ContainsCI(content, "discord")
  { }

  /** Where no other journal term occurs, "longevity" makes a journal report exactly when
      "paper" occurs too. */
  lemma LongevityNeedsPaper(content: string)
    requires ContainsCI(content, "longevity")
    requires !ContainsCI(content, "journal") && !ContainsCI(content, "pubmed")
    requires !ContainsCI(content, "semantic scholar") && !ContainsCI(content, "doi:")
    ensures ClassifySource(content) == Journal <==> ContainsCI(content, "paper")
  { }

  /** Text that mentions both a podcast and PubMed is a journal report. */
  lemma PodcastAndPubMedIsJournal(content: string)
    requires ContainsCI(content, "podcast") && ContainsCI(content, "pubmed")
    ensures ClassifySource(content) == Journal
  { }

  // ---------------------------------------------------------------------------
  // Declared item count: /(\d+)\s*(tweets?|posts?|results?)/i

  /** A match of the item-count expression starts at `p`: a run of digits, optional
      `\s`, then "tweet", "post" or "result" in any case. A shorter digit run or fewer
      spaces can never be followed by a keyword, so the greedy reading is the only one. */
  predicate CountMatchAt(s: string, p: nat) {
    p < |s| && IsDigit(s[p])
    && var w := SkipSpaces(s, DigitsEnd(s, p));
       AtCI(s, "tweet", w) || AtCI(s, "post", w) || AtCI(s, "result", w)
  }

  /** The captured digits of the leftmost match at or after `from`, as a number. */
  function CountFrom(s: string, from: nat): (r: Option<nat>)
    requires from <= |s|
    decreases |s| - from
    ensures r.None? <==> forall q :: from <= q < |s| ==> !CountMatchAt(s, q)
    ensures r.Some? ==> exists q :: (from <= q < |s| && CountMatchAt(s, q)
      && (forall q' :: from <= q' < q ==> !CountMatchAt(s, q'))
      && r.value == DigitsValue(s[q..DigitsEnd(s, q)]))
  {
    if from == |s| then None
    else if CountMatchAt(s, from) then Some(DigitsValue(s[from..DigitsEnd(s, from)]))
    else CountFrom(s, from + 1)
  }

  function TweetCount(content: string): Option<nat> {
    CountFrom(content, 0)
  }

  // ---------------------------------------------------------------------------
  // Sections: content.split(/\n(?=#{1,3}\s)/)

  /** The lookahead `#{1,3}\s` holds at `j`: one to three '#' and then a `\s` character.
      A `\s` character is never '#', so the run of '#' must be complete. */
  predicate HeadingAhead(s: string, j: nat) {
    j <= |s| && var h := RunOf(s, '#', j); 1 <= h - j <= 3 && h < |s| && IsSpace(s[h])
  }

  predicate IsSplitPoint(s: string, i: nat) {
    i < |s| && s[i] == '\n' && HeadingAhead(s, i + 1)
  }

  function FirstSplit(s: string, from: nat): (r: Option<nat>)
    requires from <= |s|
    decreases |s| - from
    ensures r.Some? ==> from <= r.value < |s| && IsSplitPoint(s, r.value)
    ensures r.Some? ==> forall j :: from <= j < r.value ==> !IsSplitPoint(s, j)
    ensures r.None? ==> forall j :: from <= j < |s| ==> !IsSplitPoint(s, j)
  {
    if from == |s| then None
    else if IsSplitPoint(s, from) then Some(from)
    else FirstSplit(s, from + 1)
  }

  /** The sections of a report, in document order. */
  function Sections(s: string): (r: seq<string>)
    decreases |s|
    ensures |r| >= 1
  {
    match FirstSplit(s, 0)
    case None => [s]
    case Some(i) => [s[..i]] + Sections(s[i + 1..])
  }

  /** Splitting loses nothing: rejoining the sections with the consumed newlines gives the text back. */
  lemma {:induction false} SectionsJoin(s: string)
    ensures Join(Sections(s), "\n") == s
    decreases |s|
  {
    var first := FirstSplit(s, 0);
    if first.Some? {
      var i := first.value;
      var rest := s[i + 1..];
      assert Sections(s) == [s[..i]] + Sections(rest);
      SectionsJoin(rest);
      JoinCons(s[..i], Sections(rest), "\n");
      assert s == s[..i] + "\n" + rest;
    }
  }

  /** Where the `k`-th section starts in the text: each earlier section and the newline after it. */
  ghost function CutAt(r: seq<string>, k: nat): nat
    requires k <= |r|
  {
    if k == 0 then 0 else |r[0]| + 1 + CutAt(r[1..], k - 1)
  }

  /** Each section is the text from its start up to the next cut. */
  ghost predicate PiecesAlong(s: string, r: seq<string>) {
    forall k {:trigger CutAt(r, k)} :: 0 <= k < |r| ==> CutAt(r, k) + |r[k]| <= |s| && s[CutAt(r, k)..CutAt(r, k) + |r[k]|] == r[k]
  }

  /** Every cut is a newline before a heading. */
  ghost predicate CutsSplit(s: string, r: seq<string>) {
    forall k {:trigger CutAt(r, k)} :: 0 <= k < |r| - 1 ==> IsSplitPoint(s, CutAt(r, k) + |r[k]|)
  }

  /** No split point lies inside a section. */
  ghost predicate NoSplitInside(s: string, r: seq<string>) {
    forall k, j {:trigger CutAt(r, k), IsSplitPoint(s, j)} :: 0 <= k < |r| && CutAt(r, k) <= j < CutAt(r, k) + |r[k]| ==> !IsSplitPoint(s, j)
  }

  /** `r` lies along `s` section by section, and the last section runs to the end of the text. */
  ghost predicate CutsOf(s: string, r: seq<string>) {
    |r| >= 1 && PiecesAlong(s, r) && CutsSplit(s, r) && NoSplitInside(s, r)
    && CutAt(r, |r| - 1) + |r[|r| - 1]| == |s|
  }

  /** Whether a split point stands at `j` depends only on the text from `j` on. */
  lemma {:induction false} SplitPointShift(s: string, i: nat, j: nat)
    requires i <= |s|
    ensures IsSplitPoint(s[i..], j) == IsSplitPoint(s, i + j)
  {
    var q := s[i..];
    assert s == s[..i] + q;
    if j + 1 <= |q| {
      RunOfShift(s[..i], q, '#', j + 1);
      var h := RunOf(q, '#', j + 1);
      if h < |q| { assert s[i + h] == q[h]; }
    }
    if j < |q| { assert s[i + j] == q[j]; }
  }

  lemma {:induction false} CutAtCons(x: string, r: seq<string>, k: nat)
    requires 1 <= k <= |r| + 1
    ensures CutAt([x] + r, k) == |x| + 1 + CutAt(r, k - 1)
  {
    assert ([x] + r)[1..] == r;
  }

  lemma {:induction false} PiecesCons(s: string, i: nat, r: seq<string>)
    requires i < |s| && PiecesAlong(s[i + 1..], r)
    ensures PiecesAlong(s, [s[..i]] + r)
  {
    var q := s[i + 1..];
    var x := [s[..i]] + r;
    forall k | 0 <= k < |x|
      ensures CutAt(x, k) + |x[k]| <= |s| && s[CutAt(x, k)..CutAt(x, k) + |x[k]|] == x[k]
    {
      if k > 0 {
        CutAtCons(s[..i], r, k);
        var c := CutAt(r, k - 1);
        assert x[k] == r[k - 1];
        assert q[c..c + |r[k - 1]|] == s[i + 1 + c..i + 1 + c + |r[k - 1]|];
      }
    }
  }

  lemma {:induction false} SplitsCons(s: string, i: nat, r: seq<string>)
    requires i < |s| && IsSplitPoint(s, i) && |r| >= 1 && CutsSplit(s[i + 1..], r)
    ensures CutsSplit(s, [s[..i]] + r)
  {
    var x := [s[..i]] + r;
    forall k | 0 <= k < |x| - 1 ensures IsSplitPoint(s, CutAt(x, k) + |x[k]|) {
      if k > 0 {
        assert x[k] == r[k - 1];
        SplitAtCut(s, i, r, k);
      } else {
        assert CutAt(x, 0) + |x[0]| == i;
      }
    }
  }

  lemma {:induction false} SplitAtCut(s: string, i: nat, r: seq<string>, k: nat)
    requires i < |s| && 1 <= k < |r| && IsSplitPoint(s[i + 1..], CutAt(r, k - 1) + |r[k - 1]|)
    ensures IsSplitPoint(s, CutAt([s[..i]] + r, k) + |r[k - 1]|)
  {
    CutAtCons(s[..i], r, k);
    SplitPointShift(s, i + 1, CutAt(r, k - 1) + |r[k - 1]|);
  }

  lemma {:induction false} InsideCons(s: string, i: nat, r: seq<string>)
    requires i < |s| && forall j :: 0 <= j < i ==> !IsSplitPoint(s, j)
    requires NoSplitInside(s[i + 1..], r)
    ensures NoSplitInside(s, [s[..i]] + r)
  {
    var x := [s[..i]] + r;
    forall k, j | 0 <= k < |x| && CutAt(x, k) <= j < CutAt(x, k) + |x[k]| ensures !IsSplitPoint(s, j) {
      if k > 0 {
        CutAtCons(s[..i], r, k);
        assert x[k] == r[k - 1];
        SplitPointShift(s, i + 1, j - i - 1);
      }
    }
  }

  /** The first section, cut at the first split point, followed by the sections of the rest. */
  lemma {:induction false} CutsCons(s: string, i: nat, r: seq<string>)
    requires i < |s| && IsSplitPoint(s, i)
    requires forall j :: 0 <= j < i ==> !IsSplitPoint(s, j)
    requires CutsOf(s[i + 1..], r)
    ensures CutsOf(s, [s[..i]] + r)
  {
    var x := [s[..i]] + r;
    PiecesCons(s, i, r);
    SplitsCons(s, i, r);
    InsideCons(s, i, r);
    CutAtCons(s[..i], r, |x| - 1);
    assert x[|x| - 1] == r[|r| - 1];
  }

  /** Together with `SectionsJoin`: the sections are the pieces between the split points of
      the text, every split point of the text is a cut, and no other place is. */
  lemma {:induction false} SectionsCuts(s: string)
    ensures CutsOf(s, Sections(s))
    decreases |s|
  {
    var first := FirstSplit(s, 0);
    if first.Some? {
      var i := first.value;
      assert Sections(s) == [s[..i]] + Sections(s[i + 1..]);
      SectionsCuts(s[i + 1..]);
      CutsCons(s, i, Sections(s[i + 1..]));
    } else {
      assert Sections(s) == [s];
      assert CutAt([s], 0) == 0;
    }
  }

  /** Text in which no newline is followed by '#' and which is followed by a newline
      and a heading is one whole section. */
  lemma {:induction false} SectionsCons(x: string, z: string)
    requires forall j :: 0 <= j < |x| ==> !HashAfterNewline(x + "\n" + z, j)
    requires HeadingAhead(z, 0)
    ensures Sections(x + "\n" + z) == [x] + Sections(z)
  {
    var s := x + "\n" + z;
    var p := x + "\n";
    RunOfShift(p, z, '#', 0);
    var h := RunOf(z, '#', 0);
    assert s[|p| + h] == z[h];
    assert IsSplitPoint(s, |x|);
    forall j | 0 <= j < |x| ensures !IsSplitPoint(s, j) {
      assert !HashAfterNewline(s, j);
    }
    assert FirstSplit(s, 0) == Some(|x|);
    assert s[..|x|] == x && s[|x| + 1..] == z;
  }

  /** Text in which no newline is followed by '#' is a single section. */
  lemma {:induction false} SectionsSingle(x: string)
    requires forall j :: 0 <= j < |x| ==> !HashAfterNewline(x, j)
    ensures Sections(x) == [x]
  {
    forall j | 0 <= j < |x| ensures !IsSplitPoint(x, j) {
      assert !HashAfterNewline(x, j);
    }
  }

  // ---------------------------------------------------------------------------
  // Heading line: /^#{1,3}\s*(.+)/ and /^#{1,3}\s*.+\n/

  /** `.+` can start at `b` (and, with `needNewline`, end just before a '\n'). */
  predicate LineStartOK(t: string, b: nat, needNewline: bool) {
    b < |t| && !IsLineTerminator(t[b])
    && (needNewline ==> LineEnd(t, b) < |t| && t[LineEnd(t, b)] == '\n')
  }

  /** The largest `b` in [lo, hi] where `.+` can start: `\s*` gives back characters one at a time. */
  function LastLineStart(t: string, lo: nat, hi: nat, needNewline: bool): (r: Option<nat>)
    requires lo <= hi <= |t|
    decreases hi
    ensures r.Some? ==> lo <= r.value <= hi && LineStartOK(t, r.value, needNewline)
    ensures r.Some? ==> forall b :: r.value < b <= hi ==> !LineStartOK(t, b, needNewline)
    ensures r.None? ==> forall b :: lo <= b <= hi ==> !LineStartOK(t, b, needNewline)
  {
    if LineStartOK(t, hi, needNewline) then Some(hi)
    else if hi == lo then None
    else LastLineStart(t, lo, hi - 1, needNewline)
  }

  /** Tries `a` leading '#' then fewer: the capture `(.+)` as a range [b, e). */
  function MatchHashes(t: string, a: nat, needNewline: bool): (r: Option<(nat, nat)>)
    requires a <= RunOf(t, '#', 0)
    ensures r.Some? ==> exists n :: (1 <= n <= a && n <= r.value.0 < r.value.1 <= |t|
      && AllSpace(t[n..r.value.0]) && r.value.1 == LineEnd(t, r.value.0)
      && LineStartOK(t, r.value.0, needNewline))
  {
    if a == 0 then None
    else
      match LastLineStart(t, a, SkipSpaces(t, a), needNewline)
      case Some(b) =>
        assert AllSpace(t[a..b]);
        Some((b, LineEnd(t, b)))
      case None => MatchHashes(t, a - 1, needNewline)
  }

  /** The anchored heading-line match: up to three '#', optional `\s`, then a rest of line. */
  function HeadingLine(t: string, needNewline: bool): (r: Option<(nat, nat)>)
    ensures r.Some? ==> exists n :: (1 <= n <= 3 && n <= RunOf(t, '#', 0) && n <= r.value.0 < r.value.1 <= |t|
      && AllSpace(t[n..r.value.0]) && r.value.1 == LineEnd(t, r.value.0)
      && LineStartOK(t, r.value.0, needNewline))
    ensures RunOf(t, '#', 0) == 0 ==> r.None?
  {
    var h := RunOf(t, '#', 0);
    MatchHashes(t, if h < 3 then h else 3, needNewline)
  }

  /** `section.match(/^#{1,3}\s*(.+)/)[1].trim()`, or None when there is no match. */
  function Heading(section: string): Option<string> {
    match HeadingLine(section, false)
    case None => None
    case Some((b, e)) => Some(Trim(section[b..e]))
  }

  /** `section.replace(/^#{1,3}\s*.+\n/, '').trim()`: the heading line goes only with its newline. */
  function Body(section: string): string {
    match HeadingLine(section, true)
    case None => Trim(section)
    case Some((b, e)) => Trim(section[e + 1..])
  }

  /** A section that opens with one to three '#', a space and a line of text: the
      heading is that text trimmed, and the body is what follows its newline, trimmed. */
  lemma HeadingOfSection(hashes: string, text: string, rest: string)
    requires 1 <= |hashes| <= 3 && forall k :: 0 <= k < |hashes| ==> hashes[k] == '#'
    requires text != [] && !IsSpace(text[0]) && NoLineTerminator(text)
    ensures Heading(hashes + " " + text + "\n" + rest) == Some(Trim(text))
    ensures Body(hashes + " " + text + "\n" + rest) == Trim(rest)
  {
    var t := hashes + " " + text + "\n" + rest;
    var n := |hashes|;
    var e := n + 1 + |text|;
    forall k | 0 <= k < n ensures t[k] == '#' { assert t[k] == hashes[k]; }
    assert t[n] == ' ';
    RunOfFramed(t, '#', 0, n);
    assert t[n + 1] == text[0];
    SkipSpacesFramed(t, n, n + 1);
    forall k | n + 1 <= k < e ensures !IsLineTerminator(t[k]) { assert t[k] == text[k - n - 1]; }
    assert t[e] == '\n';
    LineEndFramed(t, n + 1, e);
    assert LineStartOK(t, n + 1, false) && LineStartOK(t, n + 1, true);
    assert HeadingLine(t, false) == Some((n + 1, e));
    assert HeadingLine(t, true) == Some((n + 1, e));
    assert t[n + 1..e] == text;
    assert t[e + 1..] == rest;
  }

  // ---------------------------------------------------------------------------
  // Stop latch and meta sections

  /** /opportunities\s*\(/i */
  predicate OpportunitiesParen(h: string) {
    exists i | 0 <= i <= |h| - 13 ::
      AtCI(h, "opportunities", i) && SkipSpaces(h, i + 13) < |h| && h[SkipSpaces(h, i + 13)] == '('
  }

  /** /pattern summary|opportunities\s*\(|bottom line/i */
  predicate IsStopHeading(h: string) {
    ContainsCI(h, "pattern summary") || OpportunitiesParen(h) || ContainsCI(h, "bottom line")
  }

  /** /summary|overview|intro|metadata|config/i */
  predicate IsMetaHeading(h: string) {
    ContainsCI(h, "summary") || ContainsCI(h, "overview") || ContainsCI(h, "intro")
    || ContainsCI(h, "metadata") || ContainsCI(h, "config")
  }

  lemma OpportunitiesParenNeedsWord(h: string)
    requires OpportunitiesParen(h)
    ensures ContainsCI(h, "opportunities")
  { }

  predicate IsStopSection(section: string) {
    Heading(section).Some? && IsStopHeading(Heading(section).value)
  }

  /** The index of the first section whose heading trips the latch, or the section count. */
  function StopIndex(sections: seq<string>): (k: nat)
    ensures k <= |sections|
    ensures forall j :: 0 <= j < k ==> !IsStopSection(sections[j])
    ensures k < |sections| ==> IsStopSection(sections[k])
  {
    FirstIndex(sections, IsStopSection)
  }

  // ---------------------------------------------------------------------------
  // Priority

  /** The capture of /Priority:\s*(?:…)?\s*(.+)/i at the leftmost start at or after `from`.
      The optional group lists mis-encoded emoji and is taken never to match; the two
      `\s*` then act as one, so the capture begins at the last place in the run of
      `\s` where `.+` can start. */
  function PriorityFrom(t: string, from: nat): (r: Option<string>)
    requires from <= |t|
    decreases |t| - from
    ensures r.Some? ==> exists i :: from <= i && AtCI(t, "priority:", i)
  {
    if from + 9 > |t| then None
    else if AtCI(t, "priority:", from) then
      match LastLineStart(t, from + 9, SkipSpaces(t, from + 9), false)
      case Some(b) => Some(t[b..LineEnd(t, b)])
      case None => PriorityFrom(t, from + 1)
    else PriorityFrom(t, from + 1)
  }

  /** /Priority:\s*(.+)/i can match at `i` with the capture starting at `b`. */
  predicate PriorityCaptures(t: string, i: nat, b: nat) {
    AtCI(t, "priority:", i) && i + 9 <= b <= SkipSpaces(t, i + 9) && LineStartOK(t, b, false)
  }

  /** /Priority:\s*(.+)/i matches at `i`. */
  predicate PriorityMatches(t: string, i: nat) {
    i + 9 <= |t| && exists b | i + 9 <= b <= SkipSpaces(t, i + 9) :: PriorityCaptures(t, i, b)
  }

  /** `v` is the capture of the leftmost match at or after `from`: the capture starts as
      late as the greedy `\s*` allows and runs to the end of the line. */
  ghost predicate LeftmostPriority(t: string, from: nat, v: string) {
    exists i: nat, b: nat :: LeftmostAt(t, from, i, b, v)
  }

  /** The match at `i`, with the capture starting at `b`, is the leftmost one at or after
      `from`, and `v` is its capture. */
  ghost predicate LeftmostAt(t: string, from: nat, i: nat, b: nat, v: string) {
    from <= i && PriorityCaptures(t, i, b)
    && (forall j :: from <= j < i ==> !PriorityMatches(t, j))
    && (forall c :: b < c <= SkipSpaces(t, i + 9) ==> !LineStartOK(t, c, false))
    && v == t[b..LineEnd(t, b)]
  }

  /** The search finds nothing exactly when the pattern matches nowhere at or after
      `from`, and otherwise yields the leftmost match's capture. */
  lemma {:induction false} PriorityFromMatch(t: string, from: nat)
    requires from <= |t|
    ensures PriorityFrom(t, from).None? <==> forall i :: from <= i ==> !PriorityMatches(t, i)
    ensures PriorityFrom(t, from).Some? ==> LeftmostPriority(t, from, PriorityFrom(t, from).value)
    decreases |t| - from
  {
    if from + 9 > |t| {
      forall i | from <= i ensures !PriorityMatches(t, i) { }
    } else if PriorityMatches(t, from) {
      PriorityFromHere(t, from);
    } else {
      PriorityFromSkips(t, from);
      PriorityFromMatch(t, from + 1);
      LeftmostStep(t, from, PriorityFrom(t, from));
    }
  }

  /** A match at `from` itself is the one the search returns. */
  lemma {:induction false} PriorityFromHere(t: string, from: nat)
    requires from <= |t| && PriorityMatches(t, from)
    ensures PriorityFrom(t, from).Some? && LeftmostPriority(t, from, PriorityFrom(t, from).value)
  {
    var hi := SkipSpaces(t, from + 9);
    var last := LastLineStart(t, from + 9, hi, false);
    var b :| from + 9 <= b <= hi && PriorityCaptures(t, from, b);
    assert last.Some?;
    var c := last.value;
    assert PriorityCaptures(t, from, c);
    assert LeftmostAt(t, from, from, c, t[c..LineEnd(t, c)]);
  }

  /** Where the pattern fails the search moves on. */
  lemma {:induction false} PriorityFromSkips(t: string, from: nat)
    requires from + 9 <= |t| && !PriorityMatches(t, from)
    ensures PriorityFrom(t, from) == PriorityFrom(t, from + 1)
  {
    if AtCI(t, "priority:", from) {
      var hi := SkipSpaces(t, from + 9);
      forall b | from + 9 <= b <= hi ensures !LineStartOK(t, b, false) {
        assert !PriorityCaptures(t, from, b);
      }
    }
  }

  lemma {:induction false} LeftmostAtStep(t: string, from: nat, i: nat, b: nat, v: string)
    requires !PriorityMatches(t, from) && LeftmostAt(t, from + 1, i, b, v)
    ensures LeftmostAt(t, from, i, b, v)
  {
    assert forall j :: from <= j < i ==> !PriorityMatches(t, j);
  }

  /** A place where the pattern fails changes nothing about the leftmost match after it. */
  lemma {:induction false} LeftmostStep(t: string, from: nat, r: Option<string>)
    requires !PriorityMatches(t, from)
    requires r.None? <==> forall i :: from + 1 <= i ==> !PriorityMatches(t, i)
    requires r.Some? ==> LeftmostPriority(t, from + 1, r.value)
    ensures r.None? <==> forall i :: from <= i ==> !PriorityMatches(t, i)
    ensures r.Some? ==> LeftmostPriority(t, from, r.value)
  {
    if r.Some? {
      var i: nat, b: nat :| LeftmostAt(t, from + 1, i, b, r.value);
      LeftmostAtStep(t, from, i, b, r.value);
    }
  }

  function PriorityValue(section: string): Option<string> {
    PriorityFrom(section, 0)
  }

  /** /\bmonitor\b/i */
  predicate MonitorWord(p: string) {
    exists i | 0 <= i <= |p| - 7 ::
      AtCI(p, "monitor", i) && (i == 0 || !IsWordChar(p[i - 1])) && (i + 7 == |p| || !IsWordChar(p[i + 7]))
  }

  predicate BuildNowValue(p: string) { ContainsCI(p, "build now") || ContainsCI(p, "immediate") }

  predicate BacklogValue(p: string) {
    ContainsCI(p, "backlog") || ContainsCI(p, "add to backlog") || ContainsCI(p, "explore") || ContainsCI(p, "investigate")
  }

  predicate SkipValue(p: string) {
    ContainsCI(p, "skip") || ContainsCI(p, "none") || ContainsCI(p, "dismiss") || ContainsCI(p, "not a build")
  }

  predicate MonitorValue(p: string) { MonitorWord(p) || ContainsCI(p, "watch") || ContainsCI(p, "track") }

  predicate BuildNowKeywords(section: string) {
    ContainsCI(section, "build now") || ContainsCI(section, "high priority") || ContainsCI(section, "urgent")
  }

  predicate MonitorKeywords(section: string) {
    ContainsCI(section, "low priority") || ContainsCI(section, "maybe") || ContainsCI(section, "someday")
    || ContainsCI(section, "monitor")
  }

  /** The tier an explicit "Priority:" value names; the first family that matches wins. */
  function ExplicitTier(p: string): Tier {
    if BuildNowValue(p) then BuildNow
    else if BacklogValue(p) then Backlog
    else if SkipValue(p) then Skip
    else if MonitorValue(p) then Monitor
    else Backlog
  }

  /** Keyword scan of the whole section: a monitor-family match overrides a build-now one. */
  function InferredTier(section: string): Tier {
    if MonitorKeywords(section) then Monitor
    else if BuildNowKeywords(section) then BuildNow
    else Backlog
  }

  function PriorityOf(section: string): Tier {
    match PriorityValue(section)
    case Some(p) => ExplicitTier(p)
    case None => InferredTier(section)
  }

  /** An explicit "Priority:" line decides, whatever keywords the rest of the section holds. */
  lemma ExplicitPriorityWins(section: string)
    requires PriorityValue(section).Some? && ContainsCI(PriorityValue(section).value, "build now")
    ensures PriorityOf(section) == BuildNow
  { }

  /** Without a "Priority:" line, "someday" anywhere in the section makes it `monitor`,
      even next to "build now". */
  lemma MonitorOverridesBuildNow(section: string)
    requires PriorityValue(section).None? && ContainsCI(section, "someday")
    ensures PriorityOf(section) == Monitor
  { }

  // ---------------------------------------------------------------------------
  // Candidates

  /** `heading.replace(/^\d+\.\s*\/, '')`. */
  function StripOrdinal(h: string): (r: string)
    ensures |r| <= |h| && r == h[|h| - |r|..]
    ensures (h == [] || !IsDigit(h[0])) ==> r == h
  {
    var d := DigitsEnd(h, 0);
    if 0 < d < |h| && h[d] == '.' then h[SkipSpaces(h, d + 1)..] else h
  }

  /** An ordinal "12." and the `\s` after it go; the rest of the heading stays. */
  lemma {:induction false} StripOrdinalDrops(d: string, ws: string, t: string)
    requires d != [] && AllDigits(d) && AllSpace(ws)
    requires t == [] || !IsSpace(t[0])
    ensures StripOrdinal(d + "." + ws + t) == t
  {
    var h := d + "." + ws + t;
    forall k | 0 <= k < |d| ensures IsDigit(h[k]) { assert h[k] == d[k]; }
    DigitsEndFramed(h, 0, |d|);
    forall k | |d| + 1 <= k < |d| + 1 + |ws| ensures IsSpace(h[k]) { assert h[k] == ws[k - |d| - 1]; }
    if t != [] { assert h[|d| + 1 + |ws|] == t[0]; }
    SkipSpacesFramed(h, |d| + 1, |d| + 1 + |ws|);
    assert h[|d| + 1 + |ws|..] == t;
  }

  /** Digits that a '.' does not follow are part of the heading. */
  lemma {:induction false} StripOrdinalKeeps(d: string, t: string)
    requires AllDigits(d)
    requires t == [] || (t[0] != '.' && !IsDigit(t[0]))
    ensures StripOrdinal(d + t) == d + t
  {
    var h := d + t;
    forall k | 0 <= k < |d| ensures IsDigit(h[k]) { assert h[k] == d[k]; }
    if t != [] { assert h[|d|] == t[0]; }
    DigitsEndFramed(h, 0, |d|);
  }

  /** The candidate a section before the latch yields, if any. */
  function Candidate(section: string, source: Source): Option<Opportunity>
  {
    match Heading(section)
    case None => None
    case Some(h) =>
      if IsStopHeading(h) || IsMetaHeading(h) then None
      else
        var body := Body(section);
        if |body| > MinBodyLength then Some(Opportunity(StripOrdinal(h), body, source, PriorityOf(section)))
        else None
  }

  function CandidateList(section: string, source: Source): seq<Opportunity> {
    match Candidate(section, source)
    case None => []
    case Some(o) => [o]
  }

  function CandidateListOf(source: Source): string -> seq<Opportunity> {
    section => CandidateList(section, source)
  }

  /** The candidates of a run of sections, in order. */
  function Candidates(sections: seq<string>, source: Source): seq<Opportunity> {
    ConcatMap(sections, CandidateListOf(source))
  }

  /** Candidates are produced section by section, so order is document order. */
  lemma CandidatesAppend(a: seq<string>, b: seq<string>, source: Source)
    ensures Candidates(a + b, source) == Candidates(a, source) + Candidates(b, source)
  {
    ConcatMapAppend(a, b, CandidateListOf(source));
  }

  /** The opportunities of a document: candidates of the sections before the latch. */
  function Extract(sections: seq<string>, source: Source): seq<Opportunity> {
    Candidates(sections[..StopIndex(sections)], source)
  }

  function ParseMarkdown(content: string): MarkdownReport {
    var source := ClassifySource(content);
    MarkdownReport(ReportTitle(content), content, source, TweetCount(content),
                   Extract(Sections(content), source))
  }

  // ---------------------------------------------------------------------------
  // The section loop, as the source writes it

  /** `parseMarkdownReport`: the section loop keeps a one-way `reachedEnd` latch, skips
      meta sections, and reassigns `priority` through successive tests. */
  method ParseMarkdownReport(content: string) returns (r: MarkdownReport)
    ensures r == ParseMarkdown(content)
  {
    var title := ReportTitle(content);
    var source := ClassifySource(content);
    var tweetCount := TweetCount(content);
    var opportunities: seq<Opportunity> := [];
    var sections := Sections(content);
    var reachedEnd := false;
    for i := 0 to |sections|
      invariant reachedEnd <==> StopIndex(sections) < i
      invariant opportunities == Candidates(sections[..if reachedEnd then StopIndex(sections) else i], source)
    {
      var section := sections[i];
      if !reachedEnd {
        LatchStep(sections, i);
        ConcatMapSnoc(sections[..i], section, CandidateListOf(source));
        TakeSnoc(sections, i);
      }
      var sectionTitle := Heading(section);
      if sectionTitle.None? {
        continue;
      }
      var heading := sectionTitle.value;
      if IsStopHeading(heading) {
        reachedEnd := true;
        continue;
      }
      if reachedEnd {
        continue;
      }
      if IsMetaHeading(heading) {
        continue;
      }
      var sectionBody := Body(section);
      if |sectionBody| > MinBodyLength {
        var priority := Backlog;
        var priorityLine := PriorityValue(section);
        if priorityLine.Some? {
          var p := priorityLine.value;
          if BuildNowValue(p) { priority := BuildNow; }
          else if BacklogValue(p) { priority := Backlog; }
          else if SkipValue(p) { priority := Skip; }
          else if MonitorValue(p) { priority := Monitor; }
        } else {
          if BuildNowKeywords(section) { priority := BuildNow; }
          if MonitorKeywords(section) { priority := Monitor; }
        }
        assert priority == PriorityOf(section);
        opportunities := opportunities + [Opportunity(StripOrdinal(heading), sectionBody, source, priority)];
      }
    }
    TakeAll(sections);
    r := MarkdownReport(title, content, source, tweetCount, opportunities);
  }

  /** Before the latch has tripped, section `i` trips it exactly when it is a stop section. */
  lemma LatchStep(sections: seq<string>, i: nat)
    requires i < |sections| && StopIndex(sections) >= i
    ensures IsStopSection(sections[i]) ==> StopIndex(sections) == i
    ensures !IsStopSection(sections[i]) ==> StopIndex(sections) > i
  { }

  // ---------------------------------------------------------------------------
  // Properties of the extraction

  /** Once a heading trips the latch, that section and everything after it contribute
      nothing, whatever their content. */
  lemma StopLatch(before: seq<string>, stop: string, after: seq<string>, source: Source)
    requires forall j :: 0 <= j < |before| ==> !IsStopSection(before[j])
    requires IsStopSection(stop)
    ensures Extract(before + [stop] + after, source) == Candidates(before, source)
  {
    var all := before + [stop] + after;
    assert all[|before|] == stop;
    FirstIndexAt(all, IsStopSection, |before|);
    assert all[..|before|] == before;
  }

  /** Before the latch, the candidates of a document are those of its first part
      followed by those of the rest. */
  lemma ExtractAppend(a: seq<string>, b: seq<string>, source: Source)
    requires forall j :: 0 <= j < |a| ==> !IsStopSection(a[j])
    ensures Extract(a + b, source) == Candidates(a, source) + Extract(b, source)
  {
    ConcatMapBeforeFirst(a, b, IsStopSection, CandidateListOf(source));
  }

  /** The conditions under which one section yields a candidate, and what it carries. */
  lemma CandidateCondition(section: string, source: Source)
    ensures Candidate(section, source).Some? <==>
      (Heading(section).Some? && !IsStopHeading(Heading(section).value)
       && !IsMetaHeading(Heading(section).value) && |Body(section)| > MinBodyLength)
    ensures Candidate(section, source).Some? ==>
      Candidate(section, source).value
      == Opportunity(StripOrdinal(Heading(section).value), Body(section), source, PriorityOf(section))
  { }

  /** A section without a heading, or with a meta heading, is skipped without tripping the latch. */
  lemma SkippedSection(section: string, rest: seq<string>, source: Source)
    requires Heading(section).None? || (!IsStopHeading(Heading(section).value) && IsMetaHeading(Heading(section).value))
    ensures Extract([section] + rest, source) == Extract(rest, source)
  {
    assert !IsStopSection(section);
    ExtractAppend([section], rest, source);
    assert Candidate(section, source).None?;
    assert Candidates([section], source) == CandidateListOf(source)(section) + ConcatMap([section][1..], CandidateListOf(source));
  }

  /** Every extracted candidate has a body longer than 20 characters, the document's
      source, and the heading, body and priority of one section before the latch. */
  lemma ExtractShape(sections: seq<string>, source: Source, o: Opportunity)
    requires o in Extract(sections, source)
    ensures |o.description| > MinBodyLength && o.source == source
    ensures exists j :: (0 <= j < StopIndex(sections) && Heading(sections[j]).Some?
      && o.title == StripOrdinal(Heading(sections[j]).value) && o.description == Body(sections[j])
      && o.priority == PriorityOf(sections[j]))
  {
    var pre := sections[..StopIndex(sections)];
    ConcatMapMember(pre, CandidateListOf(source), o);
    var j :| 0 <= j < |pre| && o in CandidateListOf(source)(pre[j]);
    assert pre[j] == sections[j];
    CandidateShape(sections[j], source, o);
  }

  /** What a single section's candidate carries. */
  lemma CandidateShape(section: string, source: Source, o: Opportunity)
    requires o in CandidateList(section, source)
    ensures Heading(section).Some? && |o.description| > MinBodyLength && o.source == source
    ensures o.title == StripOrdinal(Heading(section).value) && o.description == Body(section)
      && o.priority == PriorityOf(section)
  {
    CandidateCondition(section, source);
  }

  /** The qualification boundary: a body of exactly 20 characters is dropped, 21 kept. */
  lemma LengthBoundary(section: string, source: Source)
    requires Heading(section).Some? && !IsStopHeading(Heading(section).value) && !IsMetaHeading(Heading(section).value)
    ensures |Body(section)| == 20 ==> Candidate(section, source).None?
    ensures |Body(section)| == 21 ==> Candidate(section, source).Some?
  { }
}
