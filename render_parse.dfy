/** What `parseMarkdownReport` in `clawdbot-integration/sync-to-tracker.js` makes of a
    report that `generateHealthReport` or `generateBusinessReport` in
    `clawdbot-integration/journal-scout.js` renders: a journal report titled by its
    heading, whose first candidate is the header section and whose other candidates
    are the papers, one each, in order. */
module RenderParse {
  import opened Text
  import opened ReportParser
  import opened JournalRender

  /** `new Date().toISOString().slice(0, 10)`: digits and dashes. */
  predicate IsoDate(date: string) {
    date != [] && forall k :: 0 <= k < |date| ==> IsDigit(date[k]) || date[k] == '-'
  }

  /** A paper whose block the parser reads back as one candidate: a one-line title that
      starts with a visible character and is neither a stop nor a meta heading, fields
      without newlines, and an abstract that does not start with '#'. */
  predicate Renderable(p: Paper) {
    p.title != [] && !IsSpace(p.title[0]) && NoLineTerminator(p.title)
    && !IsStopHeading(Trim(p.title)) && !IsMetaHeading(Trim(p.title))
    && NoChar(p.journal, '\n') && NoChar(p.authors, '\n') && NoChar(p.pubDate, '\n')
    && NoChar(p.doi, '\n') && NoChar(p.abstractText, '\n')
    && (p.abstractText == [] || p.abstractText[0] != '#')
  }

  function HeaderSection(c: Category, n: nat, date: string, daysBack: int): string {
    Join(HeaderLines(c, n, date, daysBack), "\n")
  }

  function PaperSection(c: Category, p: Paper): string {
    Join(PaperLines(c, p), "\n")
  }

  function PaperSectionsOf(c: Category): Paper -> seq<string> {
    p => [PaperSection(c, p)]
  }

  /** The body of a paper's section: the lines after the title, up to the `---` line. */
  function PaperBody(c: Category, p: Paper): string {
    MetaLine(c, p) + "\n" + LinkLine(p) + "\n\n" + p.abstractText + "\n\n---"
  }

  /** The header section is a candidate too: its heading is the report heading and its
      body is the count sentence. */
  function HeaderOpportunity(c: Category, n: nat, date: string, daysBack: int): Opportunity {
    Opportunity(HeadingText(c, date), CountLine(c, n, daysBack), Journal, PriorityOf(HeaderSection(c, n, date, daysBack)))
  }

  function PaperOpportunity(c: Category, p: Paper): Opportunity {
    Opportunity(StripOrdinal(Trim(p.title)), PaperBody(c, p), Journal, PriorityOf(PaperSection(c, p)))
  }

  function PaperOpportunityOf(c: Category): Paper -> Opportunity {
    p => PaperOpportunity(c, p)
  }

  function PaperCandidatesOf(c: Category): Paper -> seq<Opportunity> {
    p => CandidateList(PaperSection(c, p), Journal)
  }

  // ---------------------------------------------------------------------------
  // The rendered text, line by line

  lemma JoinFour(a0: string, a1: string, a2: string, a3: string)
    ensures Join([a0, a1, a2, a3], "\n") == a0 + "\n" + a1 + "\n" + a2 + "\n" + a3
  {
    assert [a0, a1, a2, a3][1..] == [a1, a2, a3];
    assert [a1, a2, a3][1..] == [a2, a3];
    assert [a2, a3][1..] == [a3];
    assert Join([a2, a3], "\n") == a2 + "\n" + a3;
    assert Join([a1, a2, a3], "\n") == a1 + "\n" + Join([a2, a3], "\n");
    assert Join([a0, a1, a2, a3], "\n") == a0 + "\n" + Join([a1, a2, a3], "\n");
    Reassoc4(a0, "\n", a1, a2, a3);
  }

  lemma Reassoc4<T>(a0: seq<T>, s: seq<T>, a1: seq<T>, a2: seq<T>, a3: seq<T>)
    ensures a0 + s + (a1 + s + (a2 + s + a3)) == a0 + s + a1 + s + a2 + s + a3
  { }

  lemma JoinNine(a0: string, a1: string, a2: string, a3: string, a4: string, a5: string, a6: string, a7: string, a8: string)
    ensures Join([a0, a1, a2, a3, a4, a5, a6, a7, a8], "\n")
      == a0 + "\n" + a1 + "\n" + a2 + "\n" + a3 + "\n" + a4 + "\n" + a5 + "\n" + a6 + "\n" + a7 + "\n" + a8
  {
    var l := [a0, a1, a2, a3, a4, a5, a6, a7, a8];
    JoinAppend(l[..4], l[4..], "\n");
    assert l[..4] + l[4..] == l;
    assert l[..4] == [a0, a1, a2, a3];
    JoinFour(a0, a1, a2, a3);
    var m := [a4, a5, a6, a7, a8];
    assert l[4..] == m;
    JoinAppend([a4], m[1..], "\n");
    assert [a4] + m[1..] == m;
    assert m[1..] == [a5, a6, a7, a8];
    JoinFour(a5, a6, a7, a8);
  }

  lemma HeaderSectionText(c: Category, n: nat, date: string, daysBack: int)
    ensures HeaderSection(c, n, date, daysBack) == "#" + " " + HeadingText(c, date) + "\n" + ("\n" + CountLine(c, n, daysBack) + "\n")
  {
    var h := HeadingText(c, date);
    var line := CountLine(c, n, daysBack);
    assert HeaderLines(c, n, date, daysBack) == ["# " + h, "", line, ""];
    HeaderJoin(h, line);
  }

  lemma HeaderJoin(h: string, line: string)
    ensures Join(["# " + h, "", line, ""], "\n") == "#" + " " + h + "\n" + ("\n" + line + "\n")
  {
    JoinFour("# " + h, "", line, "");
    assert "# " == "#" + " ";
  }

  lemma PaperSectionText(c: Category, p: Paper)
    ensures PaperSection(c, p) == "###" + " " + p.title + "\n" + ("\n" + PaperBody(c, p) + "\n")
  {
    assert PaperLines(c, p) == ["### " + p.title, "", MetaLine(c, p), LinkLine(p), "", p.abstractText, "", "---", ""];
    PaperJoin(p.title, MetaLine(c, p), LinkLine(p), p.abstractText);
  }

  lemma PaperJoin(t: string, meta: string, link: string, abs: string)
    ensures Join(["### " + t, "", meta, link, "", abs, "", "---", ""], "\n")
      == "###" + " " + t + "\n" + ("\n" + (meta + "\n" + link + "\n\n" + abs + "\n\n---") + "\n")
  {
    JoinNine("### " + t, "", meta, link, "", abs, "", "---", "");
    assert "### " == "###" + " ";
    assert "\n\n" == "\n" + "" + "\n";
    assert "\n\n---" == "\n" + "" + "\n" + "---";
  }

  lemma NumbersWithoutNewline(n: nat, m: int)
    ensures NoChar(NatToString(n), '\n') && NoChar(IntToString(m), '\n')
  {
    var r := NatToString(if m < 0 then -m else m);
    assert NoChar(r, '\n') by {
      forall k | 0 <= k < |r| ensures r[k] != '\n' { assert IsDigit(r[k]); }
    }
    var s := NatToString(n);
    forall k | 0 <= k < |s| ensures s[k] != '\n' { assert IsDigit(s[k]); }
  }

  lemma CountPhrasePlain(c: Category)
    ensures NoChar(CountPhrase(c), '\n') && |CountPhrase(c)| > MinBodyLength
  {
    if c == Health {
      PhrasePlain(" papers on supplements, lifestyle, ", "and longevity from ", "PubMed");
    } else {
      PhrasePlain(" papers on unconventional business ", "strategies from ", "Semantic Scholar");
    }
  }

  lemma PhrasePlain(a: string, b: string, d: string)
    requires NoChar(a, '\n') && NoChar(b, '\n') && NoChar(d, '\n')
    ensures NoChar(a + b + d + " (last ", '\n')
  {
    NoCharAppend(a, b, '\n');
    NoCharAppend(a + b, d, '\n');
    NoCharAppend(a + b + d, " (last ", '\n');
  }

  /** The count sentence is one line that starts with a digit and ends with '.'. */
  lemma CountLinePlain(c: Category, n: nat, daysBack: int)
    ensures NoChar(CountLine(c, n, daysBack), '\n')
    ensures IsDigit(CountLine(c, n, daysBack)[0]) && CountLine(c, n, daysBack)[|CountLine(c, n, daysBack)| - 1] == '.'
    ensures |CountLine(c, n, daysBack)| > MinBodyLength
  {
    var a := NatToString(n);
    var b := IntToString(daysBack);
    var m := CountPhrase(c);
    CountPhrasePlain(c);
    NumbersWithoutNewline(n, daysBack);
    NoCharAppend(a, m, '\n');
    NoCharAppend(a + m, b, '\n');
    NoCharAppend(a + m + b, " days).", '\n');
    var s := a + m + b + " days).";
    assert s[0] == a[0];
  }

  lemma HeadingPlain(c: Category, date: string)
    requires IsoDate(date)
    ensures NoLineTerminator(HeadingText(c, date)) && NoChar(HeadingText(c, date), '\n')
    ensures !IsSpace(HeadingText(c, date)[0]) && !IsSpace(HeadingText(c, date)[|HeadingText(c, date)| - 1])
    ensures !IsDigit(HeadingText(c, date)[0])
  {
    var t := CategoryTitle(c) + " " + EmDash + " ";
    assert HeadingText(c, date) == t + date;
    TitlePrefixPlain(c);
    DatedPlain(t, date);
  }

  /** The heading's text before the date: one line, starting with a capital letter. */
  lemma TitlePrefixPlain(c: Category)
    ensures var t := CategoryTitle(c) + " " + EmDash + " ";
      t != [] && IsLetter(t[0]) && NoLineTerminator(t)
  {
    var t := CategoryTitle(c) + " " + EmDash + " ";
    if c == Health {
      assert t == "Health & Longevity \U{2014} ";
    } else {
      assert t == "Business & Contrarian Ideas \U{2014} ";
    }
  }

  /** A one-line text that starts with a letter, followed by a date, is one trimmed
      line that does not start with a digit. */
  lemma DatedPlain(t: string, date: string)
    requires IsoDate(date) && t != [] && IsLetter(t[0]) && NoLineTerminator(t)
    ensures NoLineTerminator(t + date) && NoChar(t + date, '\n')
    ensures !IsSpace((t + date)[0]) && !IsSpace((t + date)[|t + date| - 1]) && !IsDigit((t + date)[0])
  {
    var h := t + date;
    forall k | 0 <= k < |h| ensures !IsLineTerminator(h[k]) {
      if k < |t| { assert h[k] == t[k]; } else { assert h[k] == date[k - |t|]; assert IsDigit(date[k - |t|]) || date[k - |t|] == '-'; }
    }
    assert h[|h| - 1] == date[|date| - 1];
    assert IsDigit(date[|date| - 1]) || date[|date| - 1] == '-';
  }

  lemma HeaderPlain(c: Category, n: nat, date: string, daysBack: int)
    requires IsoDate(date)
    ensures PlainLines(HeaderLines(c, n, date, daysBack))
  {
    var h := HeadingText(c, date);
    var count := CountLine(c, n, daysBack);
    CountLinePlain(c, n, daysBack);
    HeadingPlain(c, date);
    NoCharAppend("# ", h, '\n');
    LinesPlain4("# " + h, count);
  }

  /** The shape of the header: a line, a blank, a line not starting with '#', a blank. */
  lemma LinesPlain4(l0: string, l2: string)
    requires NoChar(l0, '\n') && NoChar(l2, '\n') && |l2| > 0 && IsDigit(l2[0])
    ensures PlainLines([l0, "", l2, ""])
  { }

  lemma MetaLinePlain(c: Category, p: Paper)
    requires NoChar(p.journal, '\n') && NoChar(p.authors, '\n') && NoChar(p.pubDate, '\n')
    ensures NoChar(MetaLine(c, p), '\n') && MetaLine(c, p)[0] == '*'
    ensures |MetaLine(c, p)| >= 10
  {
    NoCharAppend("**", p.journal, '\n');
    NoCharAppend("**" + p.journal, "** | ", '\n');
    NoCharAppend("**" + p.journal + "** | ", p.authors, '\n');
    NoCharAppend("**" + p.journal + "** | " + p.authors, " | ", '\n');
    NoCharAppend("**" + p.journal + "** | " + p.authors + " | ", p.pubDate, '\n');
    var suffix := if c == Business && p.citations != 0 then " | " + NatToString(p.citations) + " citations" else "";
    NumbersWithoutNewline(p.citations, 0);
    NoCharAppend(" | ", NatToString(p.citations), '\n');
    NoCharAppend(" | " + NatToString(p.citations), " citations", '\n');
    NoCharAppend(BaseMetaLine(p), suffix, '\n');
  }

  lemma PaperPlain(c: Category, p: Paper)
    requires Renderable(p)
    ensures PlainLines(PaperLines(c, p))
  {
    MetaLinePlain(c, p);
    assert NoChar(p.title, '\n');
    NoCharAppend("### ", p.title, '\n');
    NoCharAppend("**Link:** ", p.doi, '\n');
    var lines := PaperLines(c, p);
    assert lines[0] == "### " + p.title && lines[2] == MetaLine(c, p) && lines[3] == LinkLine(p);
  }

  // ---------------------------------------------------------------------------
  // Each section read back

  /** `s` has no character that folds to `ch`. */
  predicate LacksFolded(s: string, ch: char) {
    forall i :: 0 <= i < |s| ==> Lower(s[i]) != ch
  }

  /** `s` has no two adjacent characters that fold to `c0` then `c1`. */
  predicate LacksFoldedPair(s: string, c0: char, c1: char) {
    forall i :: 0 <= i < |s| - 1 ==> !(Lower(s[i]) == c0 && Lower(s[i + 1]) == c1)
  }

  /** Appending a date adds no letter. */
  lemma DateAddsNoLetter(t: string, date: string, ch: char)
    requires IsoDate(date) && IsLetter(ch) && LacksFolded(t, ch)
    ensures LacksFolded(t + date, ch)
  {
    var s := t + date;
    forall i | 0 <= i < |s| ensures Lower(s[i]) != ch {
      if i < |t| { assert s[i] == t[i]; } else { assert s[i] == date[i - |t|]; assert IsDigit(date[i - |t|]) || date[i - |t|] == '-'; }
    }
  }

  lemma DateAddsNoPair(t: string, date: string, c0: char, c1: char)
    requires IsoDate(date) && IsLetter(c0) && IsLetter(c1) && LacksFoldedPair(t, c0, c1)
    requires t != [] && Lower(t[|t| - 1]) != c0
    ensures LacksFoldedPair(t + date, c0, c1)
  {
    var s := t + date;
    forall i | 0 <= i < |s| - 1 ensures !(Lower(s[i]) == c0 && Lower(s[i + 1]) == c1) {
      if i + 1 < |t| {
        assert s[i] == t[i] && s[i + 1] == t[i + 1];
      } else if i + 1 == |t| {
        assert s[i] == t[i];
      } else {
        assert s[i + 1] == date[i + 1 - |t|];
        assert IsDigit(date[i + 1 - |t|]) || date[i + 1 - |t|] == '-';
      }
    }
  }

  lemma HealthLetters()
    ensures var t := "Health & Longevity \U{2014} ";
      LacksFolded(t, 'u') && LacksFolded(t, 'p') && LacksFolded(t, 'b') && LacksFolded(t, 'w')
      && LacksFolded(t, 'r') && LacksFolded(t, 'm') && LacksFolded(t, 'c')
  {
    HealthLettersUpb();
    HealthLettersWrmc();
  }

  lemma HealthLettersUpb()
    ensures var t := "Health & Longevity \U{2014} ";
      LacksFolded(t, 'u') && LacksFolded(t, 'p') && LacksFolded(t, 'b')
  { }

  lemma HealthLettersWrmc()
    ensures var t := "Health & Longevity \U{2014} ";
      LacksFolded(t, 'w') && LacksFolded(t, 'r') && LacksFolded(t, 'm') && LacksFolded(t, 'c')
  { }

  lemma BusinessLetters()
    ensures var t := "Business & Contrarian Ideas \U{2014} ";
      LacksFolded(t, 'p') && LacksFolded(t, 'm') && LacksFolded(t, 'v') && LacksFolded(t, 'f')
      && LacksFoldedPair(t, 'r', 'o')
  {
    BusinessLettersPm();
    BusinessLettersVf();
    BusinessPairRo();
  }

  lemma BusinessLettersPm()
    ensures var t := "Business & Contrarian Ideas \U{2014} ";
      LacksFolded(t, 'p') && LacksFolded(t, 'm')
  { }

  lemma BusinessLettersVf()
    ensures var t := "Business & Contrarian Ideas \U{2014} ";
      LacksFolded(t, 'v') && LacksFolded(t, 'f')
  { }

  lemma BusinessPairRo()
    ensures LacksFoldedPair("Business & Contrarian Ideas \U{2014} ", 'r', 'o')
  { }

  /** A heading without the letters u, p, b, w, r, m and c has none of the keywords. */
  lemma KeywordFreeWithoutUpbwrmc(h: string)
    requires LacksFolded(h, 'u') && LacksFolded(h, 'p') && LacksFolded(h, 'b') && LacksFolded(h, 'w')
    requires LacksFolded(h, 'r') && LacksFolded(h, 'm') && LacksFolded(h, 'c')
    ensures !IsStopHeading(h) && !IsMetaHeading(h)
  {
    NotContainsByChar(h, "pattern summary", 9);
    NotContainsByChar(h, "opportunities", 1);
    NotContainsByChar(h, "bottom line", 0);
    NotContainsByChar(h, "summary", 1);
    NotContainsByChar(h, "overview", 7);
    NotContainsByChar(h, "intro", 3);
    NotContainsByChar(h, "metadata", 0);
    NotContainsByChar(h, "config", 0);
    if OpportunitiesParen(h) {
      OpportunitiesParenNeedsWord(h);
    }
  }

  /** A heading without p, m, v, f and the pair "ro" has none of the keywords. */
  lemma KeywordFreeWithoutPmvfRo(h: string)
    requires LacksFolded(h, 'p') && LacksFolded(h, 'm') && LacksFolded(h, 'v') && LacksFolded(h, 'f')
    requires LacksFoldedPair(h, 'r', 'o')
    ensures !IsStopHeading(h) && !IsMetaHeading(h)
  {
    NotContainsByChar(h, "pattern summary", 0);
    NotContainsByChar(h, "opportunities", 1);
    NotContainsByChar(h, "bottom line", 5);
    NotContainsByChar(h, "summary", 2);
    NotContainsByChar(h, "overview", 1);
    NotContainsByPair(h, "intro", 3);
    NotContainsByChar(h, "metadata", 0);
    NotContainsByChar(h, "config", 3);
    if OpportunitiesParen(h) {
      OpportunitiesParenNeedsWord(h);
    }
  }

  /** The report heading holds none of the stop or meta keywords. */
  lemma HeadingKeywordFree(c: Category, date: string)
    requires IsoDate(date)
    ensures !IsStopHeading(HeadingText(c, date)) && !IsMetaHeading(HeadingText(c, date))
  {
    var t := CategoryTitle(c) + " " + EmDash + " ";
    assert HeadingText(c, date) == t + date;
    if c == Health {
      assert t == "Health & Longevity \U{2014} ";
      HealthLetters();
      DateAddsNoLetter(t, date, 'u');
      DateAddsNoLetter(t, date, 'p');
      DateAddsNoLetter(t, date, 'b');
      DateAddsNoLetter(t, date, 'w');
      DateAddsNoLetter(t, date, 'r');
      DateAddsNoLetter(t, date, 'm');
      DateAddsNoLetter(t, date, 'c');
      KeywordFreeWithoutUpbwrmc(t + date);
    } else {
      assert t == "Business & Contrarian Ideas \U{2014} ";
      BusinessLetters();
      DateAddsNoLetter(t, date, 'p');
      DateAddsNoLetter(t, date, 'm');
      DateAddsNoLetter(t, date, 'v');
      DateAddsNoLetter(t, date, 'f');
      DateAddsNoPair(t, date, 'r', 'o');
      KeywordFreeWithoutPmvfRo(t + date);
    }
  }

  /** A section made of a 1-3 '#' heading line and a long enough body, whose heading
      holds no keyword, yields exactly one candidate. */
  lemma CandidateOfParts(hashes: string, text: string, rest: string, source: Source)
    requires 1 <= |hashes| <= 3 && forall k :: 0 <= k < |hashes| ==> hashes[k] == '#'
    requires text != [] && !IsSpace(text[0]) && NoLineTerminator(text)
    requires !IsStopHeading(Trim(text)) && !IsMetaHeading(Trim(text)) && |Trim(rest)| > MinBodyLength
    ensures !IsStopSection(hashes + " " + text + "\n" + rest)
    ensures CandidateList(hashes + " " + text + "\n" + rest, source)
      == [Opportunity(StripOrdinal(Trim(text)), Trim(rest), source, PriorityOf(hashes + " " + text + "\n" + rest))]
  {
    HeadingOfSection(hashes, text, rest);
    CandidateCondition(hashes + " " + text + "\n" + rest, source);
  }

  /** The header section yields one candidate: the heading text, with the count
      sentence as its description. */
  lemma HeaderCandidate(c: Category, n: nat, date: string, daysBack: int)
    requires IsoDate(date)
    ensures !IsStopSection(HeaderSection(c, n, date, daysBack))
    ensures CandidateList(HeaderSection(c, n, date, daysBack), Journal) == [HeaderOpportunity(c, n, date, daysBack)]
  {
    HeaderSectionText(c, n, date, daysBack);
    HeadingPlain(c, date);
    CountLinePlain(c, n, daysBack);
    HeadingKeywordFree(c, date);
    HeaderParts(HeadingText(c, date), CountLine(c, n, daysBack), Journal);
  }

  /** A `# ` heading that is already trimmed, starts with no digit and holds no
      keyword, over a blank line and one long trimmed line, yields that heading and
      that line as its one candidate. */
  lemma HeaderParts(h: string, line: string, source: Source)
    requires h != [] && !IsSpace(h[0]) && !IsSpace(h[|h| - 1]) && !IsDigit(h[0]) && NoLineTerminator(h)
    requires !IsStopHeading(h) && !IsMetaHeading(h)
    requires line != [] && IsDigit(line[0]) && line[|line| - 1] == '.' && |line| > MinBodyLength
    ensures !IsStopSection("#" + " " + h + "\n" + ("\n" + line + "\n"))
    ensures CandidateList("#" + " " + h + "\n" + ("\n" + line + "\n"), source)
      == [Opportunity(h, line, source, PriorityOf("#" + " " + h + "\n" + ("\n" + line + "\n")))]
  {
    TrimOfTrimmed(h);
    BodyParts("#", h, line, source);
  }

  /** A renderable paper's section yields one candidate: its trimmed title without a
      leading ordinal, and the metadata, link and abstract lines as its description. */
  lemma PaperCandidate(c: Category, p: Paper)
    requires Renderable(p)
    ensures !IsStopSection(PaperSection(c, p))
    ensures CandidateList(PaperSection(c, p), Journal) == [PaperOpportunity(c, p)]
  {
    PaperSectionText(c, p);
    PaperBodyShape(c, p);
    BodyParts("###", p.title, PaperBody(c, p), Journal);
  }

  /** A paper's body starts with the `**` of its metadata line and ends with `---`. */
  lemma PaperBodyShape(c: Category, p: Paper)
    ensures var b := PaperBody(c, p); |b| > MinBodyLength && b[0] == '*' && b[|b| - 1] == '-'
  {
    var m := MetaLine(c, p);
    var tail := "\n" + LinkLine(p) + "\n\n" + p.abstractText + "\n\n---";
    assert PaperBody(c, p) == m + tail;
    assert m[0] == '*' && |m| >= 10;
    assert |tail| >= 16 && tail[|tail| - 1] == '-';
  }

  /** A 1-3 '#' heading without keywords over a blank line and a long trimmed body
      yields one candidate carrying that body. */
  lemma BodyParts(hashes: string, text: string, body: string, source: Source)
    requires 1 <= |hashes| <= 3 && forall k :: 0 <= k < |hashes| ==> hashes[k] == '#'
    requires text != [] && !IsSpace(text[0]) && NoLineTerminator(text)
    requires !IsStopHeading(Trim(text)) && !IsMetaHeading(Trim(text))
    requires body != [] && !IsSpace(body[0]) && !IsSpace(body[|body| - 1]) && |body| > MinBodyLength
    ensures !IsStopSection(hashes + " " + text + "\n" + ("\n" + body + "\n"))
    ensures CandidateList(hashes + " " + text + "\n" + ("\n" + body + "\n"), source)
      == [Opportunity(StripOrdinal(Trim(text)), body, source, PriorityOf(hashes + " " + text + "\n" + ("\n" + body + "\n")))]
  {
    TrimFramed("\n", body, "\n");
    CandidateOfParts(hashes, text, "\n" + body + "\n", source);
  }

  // ---------------------------------------------------------------------------
  // Splitting the report into sections

  lemma JoinPapers(c: Category, papers: seq<Paper>)
    requires |papers| > 0
    ensures |papers| == 1 ==> Join(ConcatMap(papers, PaperLinesOf(c)), "\n") == PaperSection(c, papers[0])
    ensures |papers| > 1 ==> (Join(ConcatMap(papers, PaperLinesOf(c)), "\n")
      == PaperSection(c, papers[0]) + "\n" + Join(ConcatMap(papers[1..], PaperLinesOf(c)), "\n"))
  {
    var f := PaperLinesOf(c);
    var rest := ConcatMap(papers[1..], f);
    assert ConcatMap(papers, f) == PaperLines(c, papers[0]) + rest;
    if |papers| == 1 {
      assert PaperLines(c, papers[0]) + rest == PaperLines(c, papers[0]);
    } else {
      ConcatMapLength(papers[1..], f, 9);
      JoinAppend(PaperLines(c, papers[0]), rest, "\n");
    }
  }

  /** A paper section opens with the level-3 heading marker. */
  lemma PaperSectionHeadingAhead(c: Category, p: Paper)
    ensures HeadingAhead(PaperSection(c, p), 0)
  {
    var x := PaperSection(c, p);
    PaperSectionText(c, p);
    assert x[0] == '#' && x[1] == '#' && x[2] == '#' && x[3] == ' ';
    RunOfFramed(x, '#', 0, 3);
  }

  /** Text appended after a heading marker does not disturb it. */
  lemma HeadingAheadExtend(x: string, a: string, b: string)
    requires HeadingAhead(x, 0)
    ensures HeadingAhead(x + a + b, 0)
  {
    var h := RunOf(x, '#', 0);
    var s := x + a + b;
    forall k | 0 <= k < h ensures s[k] == '#' { assert s[k] == x[k]; }
    assert s[h] == x[h];
    RunOfFramed(s, '#', 0, h);
  }

  /** The rendered papers start with a level-3 heading. */
  lemma PapersStartWithHeading(c: Category, papers: seq<Paper>)
    requires |papers| > 0
    ensures HeadingAhead(Join(ConcatMap(papers, PaperLinesOf(c)), "\n"), 0)
  {
    JoinPapers(c, papers);
    PaperSectionHeadingAhead(c, papers[0]);
    if |papers| > 1 {
      HeadingAheadExtend(PaperSection(c, papers[0]), "\n", Join(ConcatMap(papers[1..], PaperLinesOf(c)), "\n"));
    }
  }

  /** Joined plain lines form one section. */
  lemma PlainSection(a: seq<string>)
    requires |a| > 0 && PlainLines(a)
    ensures Sections(Join(a, "\n")) == [Join(a, "\n")]
  {
    JoinNoHashAfterNewline(a, "");
    assert Join(a, "\n") + "" == Join(a, "\n");
    SectionsSingle(Join(a, "\n"));
  }

  /** Joined plain lines followed by a newline and a heading form one section, then
      the sections of what follows. */
  lemma PlainSectionThen(a: seq<string>, z: string)
    requires |a| > 0 && PlainLines(a) && HeadingAhead(z, 0)
    ensures Sections(Join(a, "\n") + "\n" + z) == [Join(a, "\n")] + Sections(z)
  {
    var x := Join(a, "\n");
    JoinNoHashAfterNewline(a, "\n" + z);
    assert x + ("\n" + z) == x + "\n" + z;
    SectionsCons(x, z);
  }

  /** Each rendered paper is one section, in order. */
  lemma {:induction false} PapersSections(c: Category, papers: seq<Paper>)
    requires |papers| > 0 && forall i :: 0 <= i < |papers| ==> Renderable(papers[i])
    ensures Sections(Join(ConcatMap(papers, PaperLinesOf(c)), "\n")) == ConcatMap(papers, PaperSectionsOf(c))
    decreases |papers|
  {
    JoinPapers(c, papers);
    PaperPlain(c, papers[0]);
    assert ConcatMap(papers, PaperSectionsOf(c)) == [PaperSection(c, papers[0])] + ConcatMap(papers[1..], PaperSectionsOf(c));
    if |papers| == 1 {
      PlainSection(PaperLines(c, papers[0]));
    } else {
      var rest := papers[1..];
      forall i | 0 <= i < |rest| ensures Renderable(rest[i]) { assert rest[i] == papers[i + 1]; }
      PapersSections(c, rest);
      PapersStartWithHeading(c, rest);
      PlainSectionThen(PaperLines(c, papers[0]), Join(ConcatMap(rest, PaperLinesOf(c)), "\n"));
    }
  }

  /** The sections of a rendered report: the header, then one per paper. */
  lemma ReportSections(c: Category, papers: seq<Paper>, date: string, daysBack: int)
    requires IsoDate(date) && forall i :: 0 <= i < |papers| ==> Renderable(papers[i])
    ensures Sections(Join(ReportLines(c, papers, date, daysBack), "\n"))
      == [HeaderSection(c, |papers|, date, daysBack)] + ConcatMap(papers, PaperSectionsOf(c))
  {
    var header := HeaderLines(c, |papers|, date, daysBack);
    var body := ConcatMap(papers, PaperLinesOf(c));
    HeaderPlain(c, |papers|, date, daysBack);
    if |papers| == 0 {
      assert ReportLines(c, papers, date, daysBack) == header;
      PlainSection(header);
    } else {
      ConcatMapLength(papers, PaperLinesOf(c), 9);
      JoinAppend(header, body, "\n");
      PapersSections(c, papers);
      PapersStartWithHeading(c, papers);
      PlainSectionThen(header, Join(body, "\n"));
    }
  }

  // ---------------------------------------------------------------------------
  // The parse of a rendered report

  /** The candidates of the paper sections are the papers' opportunities, in order. */
  lemma PaperCandidates(c: Category, papers: seq<Paper>)
    requires forall i :: 0 <= i < |papers| ==> Renderable(papers[i])
    ensures forall j :: 0 <= j < |ConcatMap(papers, PaperSectionsOf(c))| ==> !IsStopSection(ConcatMap(papers, PaperSectionsOf(c))[j])
    ensures Candidates(ConcatMap(papers, PaperSectionsOf(c)), Journal) == Map(papers, PaperOpportunityOf(c))
  {
    var sections := ConcatMap(papers, PaperSectionsOf(c));
    forall i | 0 <= i < |papers| ensures PaperSectionsOf(c)(papers[i]) == [PaperSection(c, papers[i])] { }
    ConcatMapSingletons(papers, PaperSectionsOf(c), p => PaperSection(c, p));
    forall j | 0 <= j < |sections| ensures !IsStopSection(sections[j]) {
      PaperCandidate(c, papers[j]);
    }
    forall i | 0 <= i < |papers|
      ensures ConcatMap(PaperSectionsOf(c)(papers[i]), CandidateListOf(Journal)) == PaperCandidatesOf(c)(papers[i])
    {
      var s := PaperSection(c, papers[i]);
      assert ConcatMap([s], CandidateListOf(Journal)) == CandidateList(s, Journal) + ConcatMap([s][1..], CandidateListOf(Journal));
    }
    ConcatMapFlatten(papers, PaperSectionsOf(c), CandidateListOf(Journal), PaperCandidatesOf(c));
    forall i | 0 <= i < |papers| ensures PaperCandidatesOf(c)(papers[i]) == [PaperOpportunityOf(c)(papers[i])] {
      PaperCandidate(c, papers[i]);
    }
    ConcatMapSingletons(papers, PaperCandidatesOf(c), PaperOpportunityOf(c));
  }

  /** The key the count sentence names its database by. */
  function DatabaseKey(c: Category): string {
    match c
    case Health => "pubmed"
    case Business => "semantic scholar"
  }

  /** The count sentence names PubMed or Semantic Scholar. */
  lemma CountLineNamesDatabase(c: Category, n: nat, daysBack: int)
    ensures ContainsCI(CountLine(c, n, daysBack), DatabaseKey(c))
  {
    CountPhraseNamesDatabase(c);
    var num := NatToString(n);
    var tail := IntToString(daysBack) + " days).";
    assert CountLine(c, n, daysBack) == num + CountPhrase(c) + tail;
    ContainsCIWithin(num, CountPhrase(c), tail, DatabaseKey(c));
  }

  lemma CountPhraseNamesDatabase(c: Category)
    ensures ContainsCI(CountPhrase(c), DatabaseKey(c))
  {
    if c == Health {
      var a := " papers on supplements, lifestyle, " + "and longevity from ";
      assert CountPhrase(c) == a + "PubMed" + " (last ";
      ContainsCIAt(a, "PubMed", " (last ", "pubmed");
    } else {
      var a := " papers on unconventional business " + "strategies from ";
      assert CountPhrase(c) == a + "Semantic Scholar" + " (last ";
      ContainsCIAt(a, "Semantic Scholar", " (last ", "semantic scholar");
    }
  }

  /** The report's first line is its `# ` heading. */
  lemma RenderedTitle(c: Category, papers: seq<Paper>, date: string, daysBack: int)
    requires IsoDate(date)
    ensures ReportTitle(Join(ReportLines(c, papers, date, daysBack), "\n")) == HeadingText(c, date)
  {
    var lines := ReportLines(c, papers, date, daysBack);
    ReportLinesHead(c, papers, date, daysBack);
    JoinHead(lines, "\n");
    HeadingPlain(c, date);
    TitledBy(HeadingText(c, date), Join(lines[1..], "\n"));
  }

  /** A document whose first line is a `# ` heading with trimmed one-line text is
      titled by that text. */
  lemma TitledBy(h: string, rest: string)
    requires NoChar(h, '\n') && h != [] && !IsSpace(h[0]) && !IsSpace(h[|h| - 1])
    ensures ReportTitle("# " + h + "\n" + rest) == h
  {
    NoCharAppend("# ", h, '\n');
    assert ("# " + h)[..2] == "# ";
    TitleOfFirstLine("# " + h, rest);
    TitleTextOfHeading(h);
    TrimOfTrimmed(h);
  }

  /** The third of four or more joined lines, with what comes before and after it. */
  lemma JoinAroundThird(lines: seq<string>)
    requires |lines| >= 4
    ensures Join(lines, "\n") == (lines[0] + "\n" + lines[1] + "\n") + lines[2] + ("\n" + Join(lines[3..], "\n"))
  {
    var j1 := Join(lines[1..], "\n");
    var j2 := Join(lines[2..], "\n");
    var j3 := Join(lines[3..], "\n");
    assert lines[1..][1..] == lines[2..] && lines[2..][1..] == lines[3..];
    assert Join(lines, "\n") == lines[0] + "\n" + j1;
    assert j1 == lines[1] + "\n" + j2;
    assert j2 == lines[2] + "\n" + j3;
    Reassoc3(lines[0], "\n", lines[1], lines[2], j3);
  }

  lemma Reassoc3<T>(a0: seq<T>, s: seq<T>, a1: seq<T>, a2: seq<T>, rest: seq<T>)
    ensures a0 + s + (a1 + s + (a2 + s + rest)) == (a0 + s + a1 + s) + a2 + (s + rest)
  { }

  /** The third line names the database, so the report is classified as a journal. */
  lemma RenderedSource(c: Category, papers: seq<Paper>, date: string, daysBack: int)
    ensures ClassifySource(Join(ReportLines(c, papers, date, daysBack), "\n")) == Journal
  {
    var lines := ReportLines(c, papers, date, daysBack);
    ReportHeader(c, papers, date, daysBack);
    JoinAroundThird(lines);
    CountLineNamesDatabase(c, |papers|, daysBack);
    ContainsCIWithin(lines[0] + "\n" + lines[1] + "\n", lines[2], "\n" + Join(lines[3..], "\n"), DatabaseKey(c));
    JournalOutranks(Join(lines, "\n"));
  }

  /** A section list without a stop heading: the candidates of its head, then of the rest. */
  lemma HeaderThenPapers(header: string, ps: seq<string>, source: Source, o: Opportunity)
    requires !IsStopSection(header) && CandidateList(header, source) == [o]
    requires forall j :: 0 <= j < |ps| ==> !IsStopSection(ps[j])
    ensures Extract([header] + ps, source) == [o] + Candidates(ps, source)
  {
    var sections := [header] + ps;
    forall j | 0 <= j < |sections| ensures !IsStopSection(sections[j]) {
      if j > 0 { assert sections[j] == ps[j - 1]; }
    }
    FirstIndexAt(sections, IsStopSection, |sections|);
    assert sections[..|sections|] == sections;
    CandidatesAppend([header], ps, source);
    assert ConcatMap([header], CandidateListOf(source)) == CandidateList(header, source) + ConcatMap([header][1..], CandidateListOf(source));
  }

  /** No section trips the latch, so the report's candidates are the header's
      followed by each paper's, in input order. */
  lemma RenderedExtract(c: Category, papers: seq<Paper>, date: string, daysBack: int)
    requires IsoDate(date) && forall i :: 0 <= i < |papers| ==> Renderable(papers[i])
    ensures Extract(Sections(Join(ReportLines(c, papers, date, daysBack), "\n")), Journal)
      == [HeaderOpportunity(c, |papers|, date, daysBack)] + Map(papers, PaperOpportunityOf(c))
  {
    var n := |papers|;
    ReportSections(c, papers, date, daysBack);
    HeaderCandidate(c, n, date, daysBack);
    PaperCandidates(c, papers);
    HeaderThenPapers(HeaderSection(c, n, date, daysBack), ConcatMap(papers, PaperSectionsOf(c)), Journal, HeaderOpportunity(c, n, date, daysBack));
  }

  /** Render then parse: a rendered report is a journal report titled by its heading;
      its opportunities are the header section's and then each paper's, in input order. */
  lemma RenderThenParse(c: Category, papers: seq<Paper>, date: string, daysBack: int)
    requires IsoDate(date) && forall i :: 0 <= i < |papers| ==> Renderable(papers[i])
    ensures var r := ParseMarkdown(Join(ReportLines(c, papers, date, daysBack), "\n"));
      r.source == Journal && r.title == HeadingText(c, date)
      && r.opportunities == [HeaderOpportunity(c, |papers|, date, daysBack)] + Map(papers, PaperOpportunityOf(c))
  {
    RenderedTitle(c, papers, date, daysBack);
    RenderedSource(c, papers, date, daysBack);
    RenderedExtract(c, papers, date, daysBack);
  }
}
