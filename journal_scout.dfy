/** Paper normalisation in `clawdbot-integration/journal-scout.js`: cutting PubMed's
    XML into paper records (`extractTag`, `parsePubMedXml`), mapping Semantic Scholar
    search results, and removing duplicate titles (`dedup`). */
module JournalScout {
  import opened Text

  /** A normalised paper. `doi` holds the link the report prints, as in the source. */
  datatype Paper = Paper(
    title: string,
    abstractText: string,
    journal: string,
    authors: string,
    pubDate: string,
    doi: string,
    source: string,
    category: string,
    citations: nat)

  /** Papers whose abstract is not longer than this are dropped. */
  const MinAbstractLength := 50

  /** `value || fallback` for an optional string: `null` and `""` take the fallback. */
  function OrElse(o: Option<string>, fallback: string): string {
    if o.Some? && o.value != [] then o.value else fallback
  }

  // ---------------------------------------------------------------------------
  // Removing inner tags: s.replace(/<[^>]+>/g, "")

  /** `<[^>]+>` matches at `i`: a '<' whose first following '>' is not the next character. */
  predicate TagAt(s: string, i: nat) {
    i < |s| && s[i] == '<' && CharFrom(s, '>', i + 1).Some? && CharFrom(s, '>', i + 1).value > i + 1
  }

  /** The global replace, scanning left to right from `i`; a match resumes after its '>'. */
  function StripFrom(s: string, i: nat): string
    requires i <= |s|
    decreases |s| - i
  {
    if i == |s| then []
    else if TagAt(s, i) then StripFrom(s, CharFrom(s, '>', i + 1).value + 1)
    else [s[i]] + StripFrom(s, i + 1)
  }

  function StripTags(s: string): string {
    StripFrom(s, 0)
  }

  /** No match of `<[^>]+>` is left: a '<' with some '>' after it is directly followed by '>'. */
  predicate TagFree(s: string) {
    forall i, j | 0 <= i < j < |s| :: s[i] == '<' && s[j] == '>' ==> s[i + 1] == '>'
  }

  /** A character absent from the input from `i` on is absent from the output. */
  lemma {:induction false} StripFromNoChar(s: string, i: nat, c: char)
    requires i <= |s| && NoChar(s[i..], c)
    ensures NoChar(StripFrom(s, i), c)
    decreases |s| - i
  {
    if i < |s| {
      if TagAt(s, i) {
        var g := CharFrom(s, '>', i + 1).value;
        assert s[g + 1..] == s[i..][g + 1 - i..];
        StripFromNoChar(s, g + 1, c);
      } else {
        assert s[i + 1..] == s[i..][1..];
        StripFromNoChar(s, i + 1, c);
        assert s[i] == s[i..][0];
      }
    }
  }

  /** Stripping leaves no tag behind. */
  lemma {:induction false} StripFromTagFree(s: string, i: nat)
    requires i <= |s|
    ensures TagFree(StripFrom(s, i))
    decreases |s| - i
  {
    if i < |s| {
      if TagAt(s, i) {
        StripFromTagFree(s, CharFrom(s, '>', i + 1).value + 1);
      } else {
        var rest := StripFrom(s, i + 1);
        var out := StripFrom(s, i);
        assert out == [s[i]] + rest;
        StripFromTagFree(s, i + 1);
        if s[i] == '<' && CharFrom(s, '>', i + 1).None? {
          var tail := s[i + 1..];
          assert NoChar(tail, '>') by {
            forall k | 0 <= k < |tail| ensures tail[k] != '>' {
              assert tail[k] == s[i + 1 + k];
            }
          }
          StripFromNoChar(s, i + 1, '>');
        }
        forall a, b | 0 <= a < b < |out| ensures out[a] == '<' && out[b] == '>' ==> out[a + 1] == '>' {
          if a > 0 {
            assert out[a] == rest[a - 1] && out[b] == rest[b - 1] && out[a + 1] == rest[a];
          } else if s[i] == '<' && CharFrom(s, '>', i + 1).None? {
            assert out[b] == rest[b - 1];
          } else if s[i] == '<' {
            assert s[i + 1] == '>';
            assert out[1] == rest[0] == '>';
          }
        }
      }
    }
  }

  /** Text without tags passes through unchanged. */
  lemma {:induction false} StripFromTagFreeInput(s: string, i: nat)
    requires i <= |s| && TagFree(s)
    ensures StripFrom(s, i) == s[i..]
    decreases |s| - i
  {
    if i < |s| {
      if s[i] == '<' && CharFrom(s, '>', i + 1).Some? {
        var g := CharFrom(s, '>', i + 1).value;
        assert s[i + 1] == '>';
        assert g == i + 1;
      }
      assert !TagAt(s, i);
      StripFromTagFreeInput(s, i + 1);
      assert s[i..] == [s[i]] + s[i + 1..];
    }
  }

  /** Removing inner tags twice is the same as once. */
  lemma StripTagsIdempotent(s: string)
    ensures StripTags(StripTags(s)) == StripTags(s)
  {
    StripFromTagFree(s, 0);
    StripFromTagFreeInput(StripTags(s), 0);
  }

  /** A piece of tag-free text is tag-free. */
  lemma TagFreeSlice(s: string, a: nat, b: nat)
    requires TagFree(s) && a <= b <= |s|
    ensures TagFree(s[a..b])
  {
    var t := s[a..b];
    forall i, j | 0 <= i < j < |t| && t[i] == '<' && t[j] == '>' ensures t[i + 1] == '>' {
      assert s[a + i] == '<' && s[a + j] == '>';
    }
  }

  // ---------------------------------------------------------------------------
  // extractTag

  /** `<tag[^>]*>([\s\S]*?)<\/tag>` matches at `p`; the capture is [q, c).
      `[^>]*` runs to the first '>' and cannot give any of it back; the lazy capture
      ends at the first closing tag after it. */
  function TagMatchAt(s: string, tag: string, p: nat): Option<(nat, nat)> {
    if !At(s, "<" + tag, p) then None
    else
      match CharFrom(s, '>', p + 1 + |tag|)
      case None => None
      case Some(g) =>
        match FindFrom(s, "</" + tag + ">", g + 1)
        case None => None
        case Some(c) => Some((g + 1, c))
  }

  /** A match opens with `<tag`, then the rest of the opening tag up to its '>', and the
      capture ends where the first closing tag after it starts. */
  lemma TagMatchShape(s: string, tag: string, p: nat)
    requires TagMatchAt(s, tag, p).Some?
    ensures var (q, c) := TagMatchAt(s, tag, p).value;
      At(s, "<" + tag, p) && p + 1 + |tag| < q <= c <= |s| && s[q - 1] == '>'
      && NoChar(s[p + 1 + |tag|..q - 1], '>')
      && At(s, "</" + tag + ">", c) && forall j :: q <= j < c ==> !At(s, "</" + tag + ">", j)
  {
    var g := CharFrom(s, '>', p + 1 + |tag|).value;
    assert forall k :: p + 1 + |tag| <= k < g ==> s[k] != '>';
  }

  /** The leftmost start at which the tag expression matches. */
  function FirstTagStart(s: string, tag: string): Option<nat> {
    FirstFrom(0, |s| + 1, (p: nat) => TagMatchAt(s, tag, p).Some?)
  }

  /** `extractTag`: the inner text of the first `tag` element, inner tags removed and
      trimmed, or None (`null`) when there is none. */
  function ExtractTag(xml: string, tag: string): Option<string> {
    match FirstTagStart(xml, tag)
    case None => None
    case Some(p) =>
      var (q, c) := TagMatchAt(xml, tag, p).value;
      Some(Trim(StripTags(xml[q..c])))
  }

  /** `extractTag` answers `null` exactly when the expression matches nowhere; otherwise
      it answers the inner text of the leftmost match, which is trimmed and holds no tag. */
  lemma ExtractTagMeaning(xml: string, tag: string)
    ensures ExtractTag(xml, tag).None? <==> forall p: nat :: p <= |xml| ==> TagMatchAt(xml, tag, p).None?
    ensures ExtractTag(xml, tag).Some? ==> exists p: nat :: (p <= |xml| && TagMatchAt(xml, tag, p).Some?
      && (forall p': nat :: p' < p ==> TagMatchAt(xml, tag, p').None?)
      && ExtractTag(xml, tag).value == Trim(StripTags(xml[TagMatchAt(xml, tag, p).value.0..TagMatchAt(xml, tag, p).value.1])))
    ensures ExtractTag(xml, tag).Some? ==> (TagFree(ExtractTag(xml, tag).value)
      && Trim(ExtractTag(xml, tag).value) == ExtractTag(xml, tag).value)
  {
    var f := (p: nat) => TagMatchAt(xml, tag, p).Some?;
    var first := FirstFrom(0, |xml| + 1, f);
    if first.None? {
      forall p: nat | p <= |xml| ensures TagMatchAt(xml, tag, p).None? {
        assert !f(p);
      }
    } else {
      var p := first.value;
      assert f(p);
      forall p': nat | p' < p ensures TagMatchAt(xml, tag, p').None? {
        assert !f(p');
      }
      var (q, c) := TagMatchAt(xml, tag, p).value;
      TagMatchShape(xml, tag, p);
      var inner := StripTags(xml[q..c]);
      StripFromTagFree(xml[q..c], 0);
      TrimIdempotent(inner);
      TrimTagFree(inner);
    }
  }

  lemma TrimTagFree(s: string)
    requires TagFree(s)
    ensures TagFree(Trim(s))
  {
    var a := TrimIsSlice(s);
    TagFreeSlice(s, a, a + |Trim(s)|);
  }

  // ---------------------------------------------------------------------------
  // Publication date and authors

  /** The end of the run of `\w` characters that starts at `i`. */
  function WordEnd(s: string, i: nat): (j: nat)
    requires i <= |s|
    decreases |s| - i
    ensures i <= j <= |s|
    ensures forall k :: i <= k < j ==> IsWordChar(s[k])
    ensures j < |s| ==> !IsWordChar(s[j])
  {
    if i < |s| && IsWordChar(s[i]) then WordEnd(s, i + 1) else i
  }

  /** `<Year>(\d{4})<\/Year>` at `q`. */
  predicate YearAt(s: string, q: nat) {
    At(s, "<Year>", q) && q + 10 <= |s| && AllDigits(s[q + 6..q + 10]) && At(s, "</Year>", q + 10)
  }

  /** `<Month>(\w+)<\/Month>` at `q`; a shorter `\w` run would leave a word character
      where '<' is needed. */
  predicate MonthAt(s: string, q: nat) {
    At(s, "<Month>", q) && WordEnd(s, q + 7) > q + 7 && At(s, "</Month>", WordEnd(s, q + 7))
  }

  /** `<PubDate>[\s\S]*?X`: the leftmost `<PubDate>` after which `X` occurs, then the
      first `X` after it. Returns where `X` starts. */
  function AfterPubDate(s: string, x: nat -> bool): (r: Option<nat>)
    ensures r.Some? ==> r.value <= |s| && x(r.value)
  {
    var start := FirstFrom(0, |s| + 1, (p: nat) => At(s, "<PubDate>", p) && FirstFrom(p + 9, |s| + 1, x).Some?);
    match start
    case None => None
    case Some(p) => FirstFrom(p + 9, |s| + 1, x)
  }

  function Year(art: string): Option<string> {
    match AfterPubDate(art, (q: nat) => YearAt(art, q))
    case None => None
    case Some(q) => Some(art[q + 6..q + 10])
  }

  function Month(art: string): Option<string> {
    match AfterPubDate(art, (q: nat) => MonthAt(art, q))
    case None => None
    case Some(q) => Some(art[q + 7..WordEnd(art, q + 7)])
  }

  /** "YYYY", "YYYY Month", or "Recent" when there is no year; a month alone is ignored. */
  function PubDate(art: string): string {
    match Year(art)
    case None => "Recent"
    case Some(y) => y + (match Month(art) case Some(m) => " " + m case None => "")
  }

  /** The date is "Recent" without a year, else four digits, and a space and a run of
      word characters after them only when a month was found. */
  lemma PubDateRule(art: string)
    ensures Year(art).None? ==> PubDate(art) == "Recent"
    ensures Year(art).Some? ==> (|Year(art).value| == 4 && AllDigits(Year(art).value)
      && PubDate(art) == Year(art).value + (if Month(art).Some? then " " + Month(art).value else ""))
    ensures Month(art).Some? ==> Month(art).value != [] && forall k :: 0 <= k < |Month(art).value| ==> IsWordChar(Month(art).value[k])
  {
    var y := AfterPubDate(art, (q: nat) => YearAt(art, q));
    if y.Some? { assert YearAt(art, y.value); }
    var m := AfterPubDate(art, (q: nat) => MonthAt(art, q));
    if m.Some? { assert MonthAt(art, m.value); }
  }

  /** `<LastName>([^<]+)<\/LastName>` at `i`; the name runs to the first '<'. */
  function LastNameAt(s: string, i: nat): (r: Option<nat>)
    ensures r.Some? ==> (i + 10 < r.value <= |s| && At(s, "<LastName>", i) && At(s, "</LastName>", r.value)
      && NoChar(s[i + 10..r.value], '<'))
  {
    if !At(s, "<LastName>", i) then None
    else
      match CharFrom(s, '<', i + 10)
      case None => None
      case Some(e) => if e > i + 10 && At(s, "</LastName>", e) then Some(e) else None
  }

  /** The names of all non-overlapping `LastName` elements from `i` on, in order. Each
      match has its tags removed by `replace(/<\/?LastName>/g, "")`; as the name holds
      no '<', exactly the name remains. */
  function LastNames(s: string, i: nat): seq<string>
    decreases |s| - i
  {
    if i >= |s| then []
    else
      match LastNameAt(s, i)
      case Some(e) => [s[i + 10..e]] + LastNames(s, e + 11)
      case None => LastNames(s, i + 1)
  }

  /** Every extracted name is non-empty and holds no '<'. */
  lemma {:induction false} LastNamesShape(s: string, i: nat)
    ensures forall k :: 0 <= k < |LastNames(s, i)| ==> LastNames(s, i)[k] != [] && NoChar(LastNames(s, i)[k], '<')
    decreases |s| - i
  {
    if i < |s| {
      match LastNameAt(s, i)
      case Some(e) =>
        LastNamesShape(s, e + 11);
        var r := LastNames(s, i);
        assert r == [s[i + 10..e]] + LastNames(s, e + 11);
        forall k | 0 <= k < |r| ensures r[k] != [] && NoChar(r[k], '<') {
          if k > 0 { assert r[k] == LastNames(s, e + 11)[k - 1]; }
        }
      case None =>
        LastNamesShape(s, i + 1);
    }
  }

  /** At most three names joined by ", ", " et al." after more than three, "Unknown" for none. */
  function AuthorsText(names: seq<string>): string {
    var shown := Join(names[..if |names| < 3 then |names| else 3], ", ");
    if shown != [] then (if |names| > 3 then shown + " et al." else shown) else "Unknown"
  }

  lemma {:induction false} JoinNonEmpty(parts: seq<string>, sep: string)
    requires |parts| > 0 && parts[0] != []
    ensures Join(parts, sep) != []
  { }

  /** The author rule as the report shows it. */
  lemma AuthorsRule(names: seq<string>)
    requires forall k :: 0 <= k < |names| ==> names[k] != []
    ensures names == [] ==> AuthorsText(names) == "Unknown"
    ensures 0 < |names| <= 3 ==> AuthorsText(names) == Join(names, ", ")
    ensures |names| > 3 ==> AuthorsText(names) == Join(names[..3], ", ") + " et al."
  {
    if |names| > 3 {
      JoinNonEmpty(names[..3], ", ");
    } else if |names| > 0 {
      assert names[..|names|] == names;
      JoinNonEmpty(names, ", ");
    }
  }

  // ---------------------------------------------------------------------------
  // parsePubMedXml

  const PubMedLinkPrefix := "https://pubmed.ncbi.nlm.nih.gov/"

  function ArticleRecord(art: string): Paper {
    Paper(
      OrElse(ExtractTag(art, "ArticleTitle"), "Untitled"),
      OrElse(ExtractTag(art, "AbstractText"), ""),
      OrElse(ExtractTag(art, "Title"), ""),
      AuthorsText(LastNames(art, 0)),
      PubDate(art),
      PubMedLinkPrefix + OrElse(ExtractTag(art, "PMID"), "") + "/",
      "PubMed",
      "health",
      0)
  }

  /** The record of one chunk, when its abstract is long enough. */
  function ArticleList(art: string): seq<Paper> {
    var paper := ArticleRecord(art);
    if |paper.abstractText| > MinAbstractLength then [paper] else []
  }

  /** The chunks after the first split on `<PubmedArticle>`. */
  function Articles(xml: string): seq<string> {
    Split(xml, "<PubmedArticle>")[1..]
  }

  function PubMedPapers(xml: string): seq<Paper> {
    ConcatMap(Articles(xml), ArticleList)
  }

  /** The fields `parsePubMedXml` reads from one chunk. */
  method ReadArticle(art: string) returns (paper: Paper)
    ensures paper == ArticleRecord(art)
  {
    var title := OrElse(ExtractTag(art, "ArticleTitle"), "Untitled");
    var abs := OrElse(ExtractTag(art, "AbstractText"), "");
    var journal := OrElse(ExtractTag(art, "Title"), "");
    var pmid := OrElse(ExtractTag(art, "PMID"), "");
    var pubDate := PubDate(art);
    var authors := AuthorsText(LastNames(art, 0));
    paper := Paper(title, abs, journal, authors, pubDate, PubMedLinkPrefix + pmid + "/", "PubMed", "health", 0);
  }

  /** `parsePubMedXml`: an index loop over the chunks, pushing the qualifying records. */
  method ParsePubMedXml(xml: string) returns (papers: seq<Paper>)
    ensures papers == PubMedPapers(xml)
  {
    papers := [];
    var articles := Split(xml, "<PubmedArticle>");
    for i := 1 to |articles|
      invariant papers == ConcatMap(articles[1..i], ArticleList)
    {
      var paper := ReadArticle(articles[i]);
      ArticleStep(articles, i, papers);
      if |paper.abstractText| > MinAbstractLength {
        papers := papers + [paper];
      }
    }
    assert articles[1..|articles|] == articles[1..];
  }

  /** One more chunk appends its list to the records kept so far. */
  lemma ArticleStep(articles: seq<string>, i: nat, papers: seq<Paper>)
    requires 1 <= i < |articles| && papers == ConcatMap(articles[1..i], ArticleList)
    ensures papers + ArticleList(articles[i]) == ConcatMap(articles[1..i + 1], ArticleList)
  {
    SliceSnoc(articles, 1, i);
    ConcatMapSnoc(articles[1..i], articles[i], ArticleList);
  }

  /** Every kept record comes from a chunk after the first, has an abstract longer than 50
      characters, and links to its PubMed page. */
  lemma PubMedKept(xml: string, paper: Paper)
    requires paper in PubMedPapers(xml)
    ensures |paper.abstractText| > MinAbstractLength && paper.source == "PubMed" && paper.category == "health"
    ensures StartsWith(paper.doi, PubMedLinkPrefix) && paper.doi[|paper.doi| - 1] == '/'
    ensures exists j :: 0 <= j < |Articles(xml)| && paper == ArticleRecord(Articles(xml)[j])
  {
    var arts := Articles(xml);
    ConcatMapMember(arts, ArticleList, paper);
    var j :| 0 <= j < |arts| && paper in ArticleList(arts[j]);
    ArticleKept(arts[j], paper);
  }

  /** The record a single chunk contributes. */
  lemma ArticleKept(art: string, paper: Paper)
    requires paper in ArticleList(art)
    ensures paper == ArticleRecord(art) && |paper.abstractText| > MinAbstractLength
    ensures paper.source == "PubMed" && paper.category == "health"
    ensures StartsWith(paper.doi, PubMedLinkPrefix) && paper.doi[|paper.doi| - 1] == '/'
  {
    var pmid := OrElse(ExtractTag(art, "PMID"), "");
    assert paper.doi == PubMedLinkPrefix + pmid + "/";
    assert paper.doi[..|PubMedLinkPrefix|] == PubMedLinkPrefix;
  }

  /** Every chunk with a long enough abstract is kept. */
  lemma PubMedComplete(xml: string, j: nat)
    requires j < |Articles(xml)| && |ArticleRecord(Articles(xml)[j]).abstractText| > MinAbstractLength
    ensures ArticleRecord(Articles(xml)[j]) in PubMedPapers(xml)
  {
    ConcatMapComplete(Articles(xml), ArticleList, j, ArticleRecord(Articles(xml)[j]));
  }

  /** A chunk's title and pmid fall back to "Untitled" and "" when missing or empty. */
  lemma ArticleDefaults(art: string)
    ensures ExtractTag(art, "ArticleTitle").None? ==> ArticleRecord(art).title == "Untitled"
    ensures ExtractTag(art, "PMID").None? ==> ArticleRecord(art).doi == PubMedLinkPrefix + "/"
    ensures ExtractTag(art, "ArticleTitle").Some? && ExtractTag(art, "ArticleTitle").value != []
      ==> ArticleRecord(art).title == ExtractTag(art, "ArticleTitle").value
  { }

  // ---------------------------------------------------------------------------
  // Semantic Scholar result mapping

  datatype ScholarAuthor = ScholarAuthor(name: Option<string>)

  /** A `paperId` as the template literal renders it: absent gives "undefined", `null` gives "null". */
  datatype PaperIdField = NoPaperId | NullPaperId | PaperId(id: string)

  /** One search result. Every field but `paperId` is read through `||` or `?.`, which treat
      an absent field and `null` alike, so None stands for both. An author entry is None
      when it is `null` itself. */
  datatype ScholarPaper = ScholarPaper(
    paperId: PaperIdField,
    title: Option<string>,
    abstractText: Option<string>,
    venue: Option<string>,
    year: Option<nat>,
    publicationDate: Option<string>,
    authors: Option<seq<Option<ScholarAuthor>>>,
    doi: Option<string>,
    citationCount: Option<nat>)

  const DoiPrefix := "https://doi.org/"
  const ScholarPrefix := "https://www.semanticscholar.org/paper/"

  /** `p.abstract && p.abstract.length > 50` */
  predicate Qualifies(p: ScholarPaper) {
    p.abstractText.Some? && |p.abstractText.value| > MinAbstractLength
  }

  function PaperIdText(f: PaperIdField): string {
    match f
    case NoPaperId => "undefined"
    case NullPaperId => "null"
    case PaperId(id) => id
  }

  /** `a.name` rendered by `join`: a missing or `null` name becomes the empty string. */
  function NameText(a: ScholarAuthor): string {
    if a.name.Some? then a.name.value else ""
  }

  /** `.map((a) => a.name)` over the shown authors; None when one of them is `null`, where
      reading its name throws. */
  function ShownNames(shown: seq<Option<ScholarAuthor>>): (r: Option<seq<string>>)
    ensures r.Some? <==> forall k :: 0 <= k < |shown| ==> shown[k].Some?
    ensures r.Some? ==> |r.value| == |shown| && forall k :: 0 <= k < |shown| ==> r.value[k] == NameText(shown[k].value)
  {
    if shown == [] then Some([])
    else
      var rest := ShownNames(shown[1..]);
      if shown[0].Some? && rest.Some? then Some([NameText(shown[0].value)] + rest.value) else None
  }

  /** The first three authors of a result. */
  function ShownAuthors(authors: Option<seq<Option<ScholarAuthor>>>): seq<Option<ScholarAuthor>> {
    var all := if authors.Some? then authors.value else [];
    all[..if |all| < 3 then |all| else 3]
  }

  /** The authors line, or None when it throws. */
  function ScholarAuthors(authors: Option<seq<Option<ScholarAuthor>>>): Option<string> {
    var all := if authors.Some? then authors.value else [];
    match ShownNames(ShownAuthors(authors))
    case None => None
    case Some(names) => Some(Join(names, ", ") + (if |all| > 3 then " et al." else ""))
  }

  /** The record one result maps to, or None when mapping it throws. */
  function ScholarRecord(p: ScholarPaper): Option<Paper> {
    match ScholarAuthors(p.authors)
    case None => None
    case Some(authors) =>
      Some(Paper(
        OrElse(p.title, "Untitled"),
        OrElse(p.abstractText, ""),
        OrElse(p.venue, "Preprint"),
        authors,
        OrElse(p.publicationDate,
               if p.year.Some? && p.year.value != 0 then NatToString(p.year.value) else "Recent"),
        if p.doi.Some? && p.doi.value != [] then DoiPrefix + p.doi.value
        else ScholarPrefix + PaperIdText(p.paperId),
        "Semantic Scholar",
        "business",
        if p.citationCount.Some? then p.citationCount.value else 0))
  }

  /** What one entry of `data.data` contributes: nothing when it fails the filter, its
      record when it passes, None when reading it throws (a `null` entry, or a `null`
      author among the first three of an entry that passes). */
  function ScholarStep(e: Option<ScholarPaper>): Option<seq<Paper>> {
    match e
    case None => None
    case Some(p) =>
      if !Qualifies(p) then Some([])
      else match ScholarRecord(p)
        case None => None
        case Some(r) => Some([r])
  }

  /** `(data.data || []).filter(…).map(…)`, or None when it throws. The filter runs over
      every entry before the map starts, but any throw ends in the same empty result, so
      which entry throws first does not matter. */
  function ScholarOutcome(xs: seq<Option<ScholarPaper>>): Option<seq<Paper>> {
    if xs == [] then Some([])
    else
      var first := ScholarStep(xs[0]);
      var rest := ScholarOutcome(xs[1..]);
      if first.Some? && rest.Some? then Some(first.value + rest.value) else None
  }

  /** The papers one query yields: a throw is caught and gives none at all. */
  function ScholarPapers(data: Option<seq<Option<ScholarPaper>>>): seq<Paper> {
    match ScholarOutcome(if data.Some? then data.value else [])
    case None => []
    case Some(ps) => ps
  }

  /** A `null` among the first three authors. */
  predicate NullAuthorShown(p: ScholarPaper) {
    exists k :: 0 <= k < |ShownAuthors(p.authors)| && ShownAuthors(p.authors)[k].None?
  }

  /** An entry throws exactly when it is `null`, or it passes the filter and shows a `null` author. */
  predicate EntryThrows(e: Option<ScholarPaper>) {
    e.None? || (Qualifies(e.value) && NullAuthorShown(e.value))
  }

  /** The mapped fields and their defaults. */
  lemma ScholarRecordRules(p: ScholarPaper)
    requires Qualifies(p) && !NullAuthorShown(p)
    ensures ScholarRecord(p).Some?
    ensures ScholarRecord(p).value.abstractText == p.abstractText.value
    ensures p.title.None? ==> ScholarRecord(p).value.title == "Untitled"
    ensures p.venue.None? ==> ScholarRecord(p).value.journal == "Preprint"
    ensures p.doi.Some? && p.doi.value != [] ==> ScholarRecord(p).value.doi == DoiPrefix + p.doi.value
    ensures (p.doi.None? || p.doi.value == []) && p.paperId.PaperId? ==> ScholarRecord(p).value.doi == ScholarPrefix + p.paperId.id
    ensures (p.doi.None? || p.doi.value == []) && p.paperId.NoPaperId? ==> ScholarRecord(p).value.doi == ScholarPrefix + "undefined"
    ensures (p.doi.None? || p.doi.value == []) && p.paperId.NullPaperId? ==> ScholarRecord(p).value.doi == ScholarPrefix + "null"
    ensures p.citationCount.None? ==> ScholarRecord(p).value.citations == 0
    ensures p.publicationDate.None? && (p.year.None? || p.year.value == 0) ==> ScholarRecord(p).value.pubDate == "Recent"
    ensures ScholarRecord(p).value.source == "Semantic Scholar" && ScholarRecord(p).value.category == "business"
  { }

  /** An author carrying the given name. */
  function Named(name: string): Option<ScholarAuthor> {
    Some(ScholarAuthor(Some(name)))
  }

  /** Up to three names, then " et al." when there are more than three authors. */
  lemma {:induction false} ScholarAuthorsRule(names: seq<string>)
    ensures |names| <= 3 ==> ScholarAuthors(Some(Map(names, Named))) == Some(Join(names, ", "))
    ensures |names| > 3 ==> ScholarAuthors(Some(Map(names, Named))) == Some(Join(names[..3], ", ") + " et al.")
  {
    var all := Map(names, Named);
    if |names| <= 3 {
      NamesRoundTrip(names, |names|);
      assert names[..|names|] == names;
      assert ShownNames(ShownAuthors(Some(all))) == Some(names);
      AuthorsLine(Some(all), names);
      assert Join(names, ", ") + "" == Join(names, ", ");
    } else {
      NamesRoundTrip(names, 3);
      AuthorsLine(Some(all), names[..3]);
    }
  }

  lemma {:induction false} AuthorsLine(authors: Option<seq<Option<ScholarAuthor>>>, names: seq<string>)
    requires ShownNames(ShownAuthors(authors)) == Some(names)
    ensures var all := if authors.Some? then authors.value else [];
      ScholarAuthors(authors) == Some(Join(names, ", ") + (if |all| > 3 then " et al." else ""))
  { }

  /** Reading back the names of the first `n` named authors gives the first `n` names. */
  lemma {:induction false} NamesRoundTrip(names: seq<string>, n: nat)
    requires n <= |names|
    ensures ShownNames(Map(names, Named)[..n]) == Some(names[..n])
    ensures n == (if |names| < 3 then |names| else 3) ==> ShownAuthors(Some(Map(names, Named))) == Map(names, Named)[..n]
  {
    var a := Map(names, Named)[..n];
    forall k | 0 <= k < n ensures a[k] == Named(names[k]) { }
    var r := ShownNames(a);
    assert r.value == names[..n];
  }

  /** A query throws exactly when one of its entries does. */
  lemma {:induction false} ScholarThrows(xs: seq<Option<ScholarPaper>>)
    ensures ScholarOutcome(xs).None? <==> exists i :: 0 <= i < |xs| && EntryThrows(xs[i])
  {
    if xs != [] {
      ScholarThrows(xs[1..]);
      StepThrows(xs[0]);
      assert forall i :: 1 <= i < |xs| ==> xs[i] == xs[1..][i - 1];
    }
  }

  lemma {:induction false} StepThrows(e: Option<ScholarPaper>)
    ensures ScholarStep(e).None? <==> EntryThrows(e)
  {
    if e.Some? && Qualifies(e.value) {
      var p := e.value;
      if NullAuthorShown(p) {
        var k :| 0 <= k < |ShownAuthors(p.authors)| && ShownAuthors(p.authors)[k].None?;
      }
    }
  }

  /** Results are mapped in order: one more entry that does not throw adds its record at
      the end when it passes the filter, and nothing when it fails it. */
  lemma {:induction false} ScholarAppend(xs: seq<Option<ScholarPaper>>, p: ScholarPaper)
    requires ScholarOutcome(xs).Some? && !EntryThrows(Some(p))
    ensures Qualifies(p) ==> ScholarPapers(Some(xs + [Some(p)])) == ScholarPapers(Some(xs)) + [ScholarRecord(p).value]
    ensures !Qualifies(p) ==> ScholarPapers(Some(xs + [Some(p)])) == ScholarPapers(Some(xs))
  {
    StepThrows(Some(p));
    OutcomeAppend(xs, [Some(p)]);
    assert ([Some(p)])[1..] == [];
  }

  /** The outcome of two runs of entries one after the other. */
  lemma {:induction false} OutcomeAppend(xs: seq<Option<ScholarPaper>>, ys: seq<Option<ScholarPaper>>)
    ensures ScholarOutcome(xs + ys) ==
      if ScholarOutcome(xs).Some? && ScholarOutcome(ys).Some? then Some(ScholarOutcome(xs).value + ScholarOutcome(ys).value)
      else None
  {
    if xs == [] {
      assert xs + ys == ys;
      assert ScholarOutcome(xs) == Some([]);
      if ScholarOutcome(ys).Some? {
        assert [] + ScholarOutcome(ys).value == ScholarOutcome(ys).value;
      }
    } else {
      var zs := xs + ys;
      assert zs[0] == xs[0];
      assert zs[1..] == xs[1..] + ys;
      OutcomeAppend(xs[1..], ys);
      var first := ScholarStep(xs[0]);
      var r := ScholarOutcome(xs[1..]);
      var q := ScholarOutcome(ys);
      assert ScholarOutcome(zs) == if first.Some? && ScholarOutcome(zs[1..]).Some?
        then Some(first.value + ScholarOutcome(zs[1..]).value) else None;
      if first.Some? && r.Some? && q.Some? {
        assert first.value + (r.value + q.value) == (first.value + r.value) + q.value;
      }
    }
  }

  /** When nothing throws, every mapped record is the record of a result that passes the
      filter, and the record of every such result is mapped. */
  lemma {:induction false} ScholarKept(xs: seq<Option<ScholarPaper>>, paper: Paper)
    requires ScholarOutcome(xs).Some?
    ensures paper in ScholarPapers(Some(xs)) <==>
      exists j :: 0 <= j < |xs| && xs[j].Some? && Qualifies(xs[j].value) && ScholarRecord(xs[j].value) == Some(paper)
  {
    if xs != [] {
      var tail := xs[1..];
      ScholarKept(tail, paper);
      assert forall j :: 1 <= j < |xs| ==> xs[j] == tail[j - 1];
      if paper in ScholarPapers(Some(tail)) {
        var j :| 0 <= j < |tail| && tail[j].Some? && Qualifies(tail[j].value) && ScholarRecord(tail[j].value) == Some(paper);
        assert xs[j + 1] == tail[j];
      }
    }
  }

  /** A record carries the abstract of its result, so every mapped abstract is longer than 50. */
  lemma {:induction false} ScholarAbstracts(xs: seq<Option<ScholarPaper>>, paper: Paper)
    requires ScholarOutcome(xs).Some? && paper in ScholarPapers(Some(xs))
    ensures |paper.abstractText| > MinAbstractLength
  {
    ScholarKept(xs, paper);
  }

  // ---------------------------------------------------------------------------
  // dedup

  predicate KeyChar(c: char) { 'a' <= c <= 'z' || '0' <= c <= '9' }

  /** `t.toLowerCase().replace(/[^a-z0-9]/g, "")` with ASCII case folding. */
  function Alnum(t: string): (r: string)
    ensures forall k :: 0 <= k < |r| ==> KeyChar(r[k])
    ensures |r| <= |t|
  {
    if t == [] then []
    else (if KeyChar(Lower(t[0])) then [Lower(t[0])] else []) + Alnum(t[1..])
  }

  /** The dedup key: the folded alphanumerics of the title, at most 60 of them. */
  function Key(title: string): (k: string)
    ensures |k| <= 60 && forall i :: 0 <= i < |k| ==> KeyChar(k[i])
  {
    var a := Alnum(title);
    if |a| <= 60 then a else a[..60]
  }

  lemma {:induction false} AlnumOfKeyChars(t: string)
    requires forall k :: 0 <= k < |t| ==> KeyChar(t[k])
    ensures Alnum(t) == t
  {
    if t != [] {
      assert Lower(t[0]) == t[0];
      AlnumOfKeyChars(t[1..]);
      assert t == [t[0]] + t[1..];
    }
  }

  /** The key of a key is the key. */
  lemma KeyIdempotent(title: string)
    ensures Key(Key(title)) == Key(title)
  {
    AlnumOfKeyChars(Key(title));
  }

  /** Folding and filtering work character by character: the key characters of a join are
      those of its parts. */
  lemma {:induction false} AlnumAppend(a: string, b: string)
    ensures Alnum(a + b) == Alnum(a) + Alnum(b)
  {
    if a != [] {
      assert (a + b)[0] == a[0];
      assert (a + b)[1..] == a[1..] + b;
      AlnumAppend(a[1..], b);
    } else {
      assert a + b == b;
    }
  }

  /** A character survives, folded to lower case, exactly when it folds to a letter or a
      digit; whatever surrounds it keeps its own key characters. */
  lemma {:induction false} AlnumAround(a: string, c: char, b: string)
    ensures Alnum(a + [c] + b) == Alnum(a) + (if KeyChar(Lower(c)) then [Lower(c)] else []) + Alnum(b)
  {
    AlnumAppend(a + [c], b);
    AlnumAppend(a, [c]);
    assert ([c])[1..] == [];
  }

  /** A title that already is at most 60 lower-case letters and digits is its own key. */
  lemma {:induction false} KeyOfKeyChars(t: string)
    requires |t| <= 60 && forall k :: 0 <= k < |t| ==> KeyChar(t[k])
    ensures Key(t) == t
  {
    AlnumOfKeyChars(t);
  }

  /** Only the first 60 key characters count: titles that agree on those collide,
      whatever follows. */
  lemma {:induction false} KeyPrefixDecides(a: string, b: string)
    requires |Alnum(a)| >= 60
    ensures Key(a + b) == Key(a)
  {
    AlnumAppend(a, b);
    assert (Alnum(a) + Alnum(b))[..60] == Alnum(a)[..60];
  }

  /** Case does not matter: a title and its lower-cased form share a key. */
  lemma {:induction false} AlnumIgnoresCase(t: string)
    ensures Alnum(Map(t, Lower)) == Alnum(t)
  {
    if t != [] {
      var m := Map(t, Lower);
      assert m[0] == Lower(t[0]) && Lower(Lower(t[0])) == Lower(t[0]);
      assert m[1..] == Map(t[1..], Lower);
      AlnumIgnoresCase(t[1..]);
    }
  }

  function KeyOf(p: Paper): string { Key(p.title) }

  function KeysOf(ps: seq<Paper>): set<string> {
    set p | p in ps :: KeyOf(p)
  }

  /** The papers of `ps` whose key is not in `seen` and not taken by an earlier paper. */
  function DedupFrom(ps: seq<Paper>, seen: set<string>): seq<Paper> {
    if ps == [] then []
    else if KeyOf(ps[0]) in seen then DedupFrom(ps[1..], seen)
    else [ps[0]] + DedupFrom(ps[1..], seen + {KeyOf(ps[0])})
  }

  function Dedup(ps: seq<Paper>): seq<Paper> {
    DedupFrom(ps, {})
  }

  /** `dedup`: a filter whose callback records each new key in the `seen` set. */
  method DedupPapers(papers: seq<Paper>) returns (kept: seq<Paper>)
    ensures kept == Dedup(papers)
  {
    var seen: set<string> := {};
    kept := [];
    for i := 0 to |papers|
      invariant kept + DedupFrom(papers[i..], seen) == Dedup(papers)
    {
      var p := papers[i];
      var key := KeyOf(p);
      assert papers[i..][0] == p && papers[i..][1..] == papers[i + 1..];
      if key in seen {
        continue;
      }
      seen := seen + {key};
      kept := kept + [p];
    }
  }

  /** `a` can be obtained from `b` by deleting elements. */
  predicate IsSubsequence(a: seq<Paper>, b: seq<Paper>)
    decreases |b|
  {
    if a == [] then true
    else if b == [] then false
    else (a[0] == b[0] && IsSubsequence(a[1..], b[1..])) || IsSubsequence(a, b[1..])
  }

  lemma {:induction false} DedupSubsequence(ps: seq<Paper>, seen: set<string>)
    ensures IsSubsequence(DedupFrom(ps, seen), ps)
    decreases |ps|
  {
    if ps != [] {
      if KeyOf(ps[0]) in seen {
        DedupSubsequence(ps[1..], seen);
      } else {
        DedupSubsequence(ps[1..], seen + {KeyOf(ps[0])});
        var out := DedupFrom(ps, seen);
        assert out[0] == ps[0] && out[1..] == DedupFrom(ps[1..], seen + {KeyOf(ps[0])});
      }
    }
  }

  /** No kept paper has a key from `seen`. */
  lemma {:induction false} DedupAvoidsSeen(ps: seq<Paper>, seen: set<string>)
    ensures forall i :: 0 <= i < |DedupFrom(ps, seen)| ==> KeyOf(DedupFrom(ps, seen)[i]) !in seen
    decreases |ps|
  {
    if ps != [] {
      var k := KeyOf(ps[0]);
      if k in seen {
        DedupAvoidsSeen(ps[1..], seen);
      } else {
        var rest := DedupFrom(ps[1..], seen + {k});
        DedupAvoidsSeen(ps[1..], seen + {k});
        var out := DedupFrom(ps, seen);
        assert out == [ps[0]] + rest;
        forall i | 0 <= i < |out| ensures KeyOf(out[i]) !in seen {
          if i > 0 { assert out[i] == rest[i - 1]; }
        }
      }
    }
  }

  /** Kept papers have pairwise distinct keys. */
  lemma {:induction false} DedupDistinct(ps: seq<Paper>, seen: set<string>)
    ensures forall i, j :: 0 <= i < j < |DedupFrom(ps, seen)| ==> KeyOf(DedupFrom(ps, seen)[i]) != KeyOf(DedupFrom(ps, seen)[j])
    decreases |ps|
  {
    if ps != [] {
      var k := KeyOf(ps[0]);
      if k in seen {
        DedupDistinct(ps[1..], seen);
      } else {
        var rest := DedupFrom(ps[1..], seen + {k});
        DedupDistinct(ps[1..], seen + {k});
        DedupAvoidsSeen(ps[1..], seen + {k});
        var out := DedupFrom(ps, seen);
        assert out == [ps[0]] + rest;
        forall i, j | 0 <= i < j < |out| ensures KeyOf(out[i]) != KeyOf(out[j]) {
          assert out[j] == rest[j - 1];
          if i > 0 { assert out[i] == rest[i - 1]; }
        }
      }
    }
  }

  /** Together with `seen`, the kept keys are the keys of the input. */
  lemma {:induction false} DedupKeySet(ps: seq<Paper>, seen: set<string>)
    ensures KeysOf(DedupFrom(ps, seen)) + seen == KeysOf(ps) + seen
    decreases |ps|
  {
    if ps != [] {
      var k := KeyOf(ps[0]);
      assert KeysOf(ps) == {k} + KeysOf(ps[1..]) by {
        assert forall p :: p in ps <==> p == ps[0] || p in ps[1..];
      }
      if k in seen {
        DedupKeySet(ps[1..], seen);
      } else {
        var rest := DedupFrom(ps[1..], seen + {k});
        DedupKeySet(ps[1..], seen + {k});
        var out := DedupFrom(ps, seen);
        assert out == [ps[0]] + rest;
        assert KeysOf(out) == {k} + KeysOf(rest) by {
          assert forall p :: p in out <==> p == ps[0] || p in rest;
        }
      }
    }
  }

  /** The first paper carrying each key (not already seen) is kept. */
  lemma {:induction false} DedupKeepsFirst(ps: seq<Paper>, seen: set<string>, i: nat)
    requires i < |ps| && KeyOf(ps[i]) !in seen
    requires forall j :: 0 <= j < i ==> KeyOf(ps[j]) != KeyOf(ps[i])
    ensures ps[i] in DedupFrom(ps, seen)
    decreases i
  {
    if i > 0 {
      var k := KeyOf(ps[0]);
      var seen' := if k in seen then seen else seen + {k};
      assert ps[1..][i - 1] == ps[i];
      DedupKeepsFirst(ps[1..], seen', i - 1);
    }
  }

  /** A list whose keys are distinct and unseen passes through unchanged. */
  lemma {:induction false} DedupOfDistinct(ps: seq<Paper>, seen: set<string>)
    requires forall i :: 0 <= i < |ps| ==> KeyOf(ps[i]) !in seen
    requires forall i, j :: 0 <= i < j < |ps| ==> KeyOf(ps[i]) != KeyOf(ps[j])
    ensures DedupFrom(ps, seen) == ps
    decreases |ps|
  {
    if ps != [] {
      var k := KeyOf(ps[0]);
      forall i | 0 <= i < |ps[1..]| ensures KeyOf(ps[1..][i]) !in seen + {k} {
        assert ps[1..][i] == ps[i + 1];
      }
      DedupOfDistinct(ps[1..], seen + {k});
    }
  }

  /** The dedup properties together: a subsequence with distinct keys that keeps every
      key and every first occurrence, and applying it twice changes nothing. */
  lemma DedupProperties(ps: seq<Paper>)
    ensures IsSubsequence(Dedup(ps), ps)
    ensures forall i, j :: 0 <= i < j < |Dedup(ps)| ==> KeyOf(Dedup(ps)[i]) != KeyOf(Dedup(ps)[j])
    ensures KeysOf(Dedup(ps)) == KeysOf(ps)
    ensures forall i :: 0 <= i < |ps| && (forall j :: 0 <= j < i ==> KeyOf(ps[j]) != KeyOf(ps[i])) ==> ps[i] in Dedup(ps)
    ensures Dedup(Dedup(ps)) == Dedup(ps)
  {
    DedupSubsequence(ps, {});
    DedupDistinct(ps, {});
    DedupKeySet(ps, {});
    forall i | 0 <= i < |ps| && (forall j :: 0 <= j < i ==> KeyOf(ps[j]) != KeyOf(ps[i])) ensures ps[i] in Dedup(ps) {
      DedupKeepsFirst(ps, {}, i);
    }
    DedupOfDistinct(Dedup(ps), {});
  }
}
