# Scout Dashboard: a verified model of the report-to-opportunity pipeline

Scout Dashboard collects "scout reports": markdown or JSON written by a research
bot from tweets, podcasts and academic papers. It cuts each report into
opportunity candidates and stores reports, opportunities and builds behind a
small authenticated HTTP API.

This project models the core of that pipeline in Dafny and proves what the code
promises:

- the markdown and JSON report parsers of the sync script;
- the paper scout: PubMed XML extraction, the Semantic Scholar mapping, dedup,
  and the two markdown renderers, with the round trip from renderer to parser;
- the six-month bucketing, the tweet total and the queue fallbacks of the stats
  route;
- the guarded build creation over two tables, and the build list with its
  fallbacks;
- the `where` filters and `POST` defaults of the report and opportunity routes;
- the API-key gate;
- the URL auto-linker of the markdown component.

Modules follow the program's files:

- `Text` holds the JavaScript string operations the code relies on: `trim`,
  `split`, `join`, `indexOf`, `\s`, and ASCII case folding.
- `Json` holds decoded JSON values and JavaScript truthiness (`||`).
- `ReportParser` and `JsonReport` model `sync-to-tracker.js`.
- `JournalScout` and `JournalRender` model `journal-scout.js`.
- `RenderParse` connects the two scripts.
- `Stats`, `Tracker` (the build, opportunity and report routes over three tables)
  and `Filters` model the API routes.
- `Auth` models `src/lib/auth.ts`.
- `AutoLink` models `src/components/markdown.tsx`.

Each regular expression is modelled as an explicit scanner. Its backtracking
behaviour (greedy or lazy, leftmost match first) is worked out and stated as a
contract. Loops in the source are Dafny `while` loops, each proved against a
specification function:

- the section loop of `parseMarkdownReport`;
- the item loop of `parseJsonReport`;
- the chunk loop of `parsePubMedXml`;
- the filter in `dedup` that records keys in `seen`;
- the push loops of the renderers;
- the bucket loop of `getReportsOverTime`.

The three database tables are the fields of a `Store` class. Its route methods
change them as the handlers do.

Three behaviours of the code are worth stating outright:

- The sync script stops at the first failed opportunity post.
- The paper scout writes no report for a category without papers.
- Only the business renderer prints a citation count. The PubMed renderer
  prints none.

## Model

| member | source | states |
|---|---|---|
| ReportParser.FirstTitleLine | clawdbot-integration/sync-to-tracker.js:64 | `lines.find`: the index of the first line starting with "# " at or after `from`; no earlier line starts so; None exactly when no line does |
| ReportParser.ReportTitle | clawdbot-integration/sync-to-tracker.js:64-65 | with no line starting with "# " the title is "Scout Report" |
| ReportParser.TitleOfFirstLine | clawdbot-integration/sync-to-tracker.js:64-65 | when the first line starts with "# ", the title is that line with its leading '#'s and spaces removed and trimmed, whatever follows |
| ReportParser.TitleTextOfHeading | clawdbot-integration/sync-to-tracker.js:65 | the title of a line "# text" is `text` trimmed |
| ReportParser.JournalOutranks | clawdbot-integration/sync-to-tracker.js:69-73 | any mention of pubmed, journal or semantic scholar classifies the report as journal, whatever else it mentions |
| ReportParser.ClassificationTiers | clawdbot-integration/sync-to-tracker.js:68-73 | podcast, discord and twitter each hold exactly when no earlier tier's terms occur: journal > podcast > discord > twitter (the default) |
| ReportParser.LongevityNeedsPaper | clawdbot-integration/sync-to-tracker.js:69-71 | `&&` binds tighter than `\|\|`: for any text that mentions "longevity" and none of the other journal terms, it is a journal report exactly when it also mentions "paper" |
| ReportParser.PodcastAndPubMedIsJournal | clawdbot-integration/sync-to-tracker.js:69-73 | any text that mentions both "podcast" and "pubmed" is a journal report |
| ReportParser.CountFrom | clawdbot-integration/sync-to-tracker.js:76-77 | the count is None exactly when the expression matches nowhere; otherwise it is the value of the digits of the leftmost match |
| ReportParser.SectionsCuts | clawdbot-integration/sync-to-tracker.js:88 | each section is the text between two cuts; every cut is a newline before one to three '#' and a `\s`; no such newline lies inside a section; the last section runs to the end |
| ReportParser.SectionsJoin | clawdbot-integration/sync-to-tracker.js:88 | splitting loses nothing: the sections joined with the consumed newlines are the text |
| ReportParser.HeadingOfSection | clawdbot-integration/sync-to-tracker.js:91-104 | for a section "#… text\nrest" the heading is `text` trimmed and the body is `rest` trimmed: the heading line goes only with its newline |
| ReportParser.OpportunitiesParenNeedsWord | clawdbot-integration/sync-to-tracker.js:96 | a heading that trips `opportunities\s*\(` contains "opportunities" |
| ReportParser.StopIndex | clawdbot-integration/sync-to-tracker.js:89-100 | the latch position: no section before it is a stop section, and the section there is one |
| ReportParser.PriorityFromMatch | clawdbot-integration/sync-to-tracker.js:108 | None exactly when `Priority:\s*(.+)` matches nowhere, ignoring case; otherwise the capture of the leftmost match, starting as late in the `\s` run as the greedy `\s*` allows and running to the end of the line |
| ReportParser.ExplicitPriorityWins | clawdbot-integration/sync-to-tracker.js:109-111 | an explicit "Priority:" value naming "build now" gives build_now, whatever keywords the rest of the section holds |
| ReportParser.MonitorOverridesBuildNow | clawdbot-integration/sync-to-tracker.js:115-118 | without a "Priority:" line, "someday" makes the section monitor even beside "build now" |
| ReportParser.StripOrdinal | clawdbot-integration/sync-to-tracker.js:121 | the stripped title is a suffix of the heading, and a heading that does not start with a digit is unchanged |
| ReportParser.StripOrdinalDrops | clawdbot-integration/sync-to-tracker.js:121 | for digits, a '.', any `\s` run and text not starting with `\s`, only that text is left |
| ReportParser.StripOrdinalKeeps | clawdbot-integration/sync-to-tracker.js:121 | digits followed by neither a digit nor a '.' stay in the title |
| ReportParser.ParseMarkdownReport | clawdbot-integration/sync-to-tracker.js:60-130 | the section loop, with its `reachedEnd` latch, meta skip and reassigned `priority`, returns exactly the specification `ParseMarkdown` |
| ReportParser.StopLatch | clawdbot-integration/sync-to-tracker.js:89-100 | once a heading trips the latch, that section and every later one contribute nothing, whatever their content |
| ReportParser.CandidateCondition | clawdbot-integration/sync-to-tracker.js:91-125 | a section yields a candidate exactly when it has a heading that is neither a stop nor a meta heading and a body longer than 20 characters; the candidate is the stripped heading, the body, the document's source and the section's priority |
| ReportParser.SkippedSection | clawdbot-integration/sync-to-tracker.js:91-102 | a section without a heading, or with a meta heading, is skipped without tripping the latch |
| ReportParser.ExtractShape | clawdbot-integration/sync-to-tracker.js:88-125 | every extracted candidate has a body longer than 20 characters, the document's source, and the heading, body and priority of one section before the latch |
| ReportParser.CandidateShape | clawdbot-integration/sync-to-tracker.js:104-125 | what one section's candidate carries |
| ReportParser.LengthBoundary | clawdbot-integration/sync-to-tracker.js:105 | a body of exactly 20 characters is dropped, one of 21 is kept |
| Json.OrTruthy | clawdbot-integration/sync-to-tracker.js:136-142 | `a \|\| b` is truthy exactly when one operand is |
| Json.FirstTruthy | clawdbot-integration/sync-to-tracker.js:136-142 | a chain is truthy when one operand is, and is the fallback when none is |
| Json.FirstTruthyPicksFirst | clawdbot-integration/sync-to-tracker.js:136-142 | a chain takes the earliest truthy operand and ignores every later one |
| Json.OrChain | clawdbot-integration/sync-to-tracker.js:136 | left-nested `\|\|` and the chain agree |
| JsonReport.ParseJsonReport | clawdbot-integration/sync-to-tracker.js:133-154 | the item loop returns exactly the specification `ParseJson`, including the TypeError a null item or a non-iterable items value throws |
| JsonReport.TitleFallback | clawdbot-integration/sync-to-tracker.js:136 | title, else reportTitle, else the dated default, each taken only when truthy |
| JsonReport.ZeroCountBecomesNull | clawdbot-integration/sync-to-tracker.js:138 | a count of 0 without a truthy totalTweets becomes null; a non-zero count is kept |
| JsonReport.EmptyArrayWins | clawdbot-integration/sync-to-tracker.js:142 | an empty `opportunities` array is truthy, wins over the other lists, and yields no opportunities |
| JsonReport.ItemPriorityRule | clawdbot-integration/sync-to-tracker.js:149 | an item is build_now exactly when its priority is truthy or its difficulty is "easy", and backlog otherwise |
| JsonReport.OpportunitiesFollowItems | clawdbot-integration/sync-to-tracker.js:142-151 | the opportunities correspond one to one, in order, to the iterated items, and all carry the report's source |
| JsonReport.ItemErrors | clawdbot-integration/sync-to-tracker.js:133-147 | the parse throws exactly when the data is null, the chosen items value is not iterable, or an iterated item is null; a truthy `opportunities` value that is neither an array nor a string always throws |
| JournalScout.StripTagsIdempotent | clawdbot-integration/journal-scout.js:157 | removing inner tags twice is the same as removing them once |
| JournalScout.ExtractTagMeaning | clawdbot-integration/journal-scout.js:155-158 | None exactly when the tag expression matches nowhere; otherwise the inner text of the leftmost match with tags removed and trimmed, which holds no tag and is its own trim |
| JournalScout.PubDateRule | clawdbot-integration/journal-scout.js:125-129 | "Recent" without a year; otherwise four digits, followed by a space and the month only when a month was found |
| JournalScout.LastNamesShape | clawdbot-integration/journal-scout.js:132-135 | every extracted surname is non-empty and holds no '<' |
| JournalScout.AuthorsRule | clawdbot-integration/journal-scout.js:133-143 | "Unknown" for no surnames, the surnames joined by ", " for up to three, the first three and " et al." for more |
| JournalScout.ParsePubMedXml | clawdbot-integration/journal-scout.js:112-153 | the index loop returns exactly the specification list of kept records |
| JournalScout.PubMedKept | clawdbot-integration/journal-scout.js:114-148 | every kept record comes from a chunk after the first, has an abstract longer than 50 characters, is a PubMed health paper, and links to its PubMed page |
| JournalScout.PubMedComplete | clawdbot-integration/journal-scout.js:116-138 | every chunk whose abstract is longer than 50 characters is kept |
| JournalScout.ArticleDefaults | clawdbot-integration/journal-scout.js:119-145 | a missing title gives "Untitled", a missing pmid gives the bare PubMed link, and a non-empty title is kept |
| JournalScout.ScholarRecordRules | clawdbot-integration/journal-scout.js:182-197 | a result that passes the filter and shows no null author maps; the abstract is kept; title and venue default to "Untitled" and "Preprint"; the link is the DOI link when a DOI exists, else the paper page ending in the id, "undefined" for a missing id or "null" for a null one; citations default to 0; with no date and no non-zero year the date is "Recent" |
| JournalScout.ScholarAuthorsRule | clawdbot-integration/journal-scout.js:186-189 | up to three names joined by ", ", with " et al." after more than three authors |
| JournalScout.ShownNames | clawdbot-integration/journal-scout.js:188 | reading the names throws exactly when a shown author is null; otherwise one name per author, a missing name as "" |
| JournalScout.ScholarThrows | clawdbot-integration/journal-scout.js:180-197 | the search throws exactly when an entry is null, or passes the filter and has a null among its first three authors |
| JournalScout.ScholarAppend | clawdbot-integration/journal-scout.js:180-197 | results map in input order: one more entry adds its record at the end when it passes the filter, and nothing when it fails it |
| JournalScout.OutcomeAppend | clawdbot-integration/journal-scout.js:180-201 | the search over two runs of entries is the first run's records then the second's, and throws when either does |
| JournalScout.ScholarKept | clawdbot-integration/journal-scout.js:180-197 | when nothing throws, a record is mapped exactly when it is the record of an entry that passes the filter |
| JournalScout.ScholarAbstracts | clawdbot-integration/journal-scout.js:181 | every mapped record has an abstract longer than 50 characters |
| JournalScout.Key | clawdbot-integration/journal-scout.js:209 | the key has at most 60 characters, all in `[a-z0-9]` |
| JournalScout.AlnumAppend | clawdbot-integration/journal-scout.js:209 | the key characters of joined text are those of its parts, in order |
| JournalScout.AlnumAround | clawdbot-integration/journal-scout.js:209 | a character survives, lower-cased, exactly when it folds to a letter or digit |
| JournalScout.AlnumIgnoresCase | clawdbot-integration/journal-scout.js:209 | lower-casing a title first does not change its key characters |
| JournalScout.KeyOfKeyChars | clawdbot-integration/journal-scout.js:209 | a title of at most 60 lower-case letters and digits is its own key |
| JournalScout.KeyPrefixDecides | clawdbot-integration/journal-scout.js:209 | only the first 60 key characters count: text after them does not change the key |
| JournalScout.KeyIdempotent | clawdbot-integration/journal-scout.js:209 | the key of a key is the key |
| JournalScout.DedupPapers | clawdbot-integration/journal-scout.js:206-214 | the filter, which records each new key in `seen`, returns exactly the specification `Dedup` |
| JournalScout.DedupSubsequence | clawdbot-integration/journal-scout.js:208 | the output is a subsequence of the input |
| JournalScout.DedupAvoidsSeen | clawdbot-integration/journal-scout.js:210 | no kept paper has a key that was already seen |
| JournalScout.DedupDistinct | clawdbot-integration/journal-scout.js:210-211 | kept papers have pairwise distinct keys |
| JournalScout.DedupKeySet | clawdbot-integration/journal-scout.js:208-213 | together with the seen keys, the kept keys are the keys of the input |
| JournalScout.DedupKeepsFirst | clawdbot-integration/journal-scout.js:208-213 | the first paper carrying each unseen key is kept |
| JournalScout.DedupOfDistinct | clawdbot-integration/journal-scout.js:208-213 | a list with distinct unseen keys passes unchanged |
| JournalScout.DedupProperties | clawdbot-integration/journal-scout.js:206-214 | dedup is a subsequence with distinct keys that keeps every key and every first occurrence, and applying it twice changes nothing |
| JournalRender.GenerateReport | clawdbot-integration/journal-scout.js:218-271 | the push loop returns the specification line list joined by newlines |
| JournalRender.ReportLineCount | clawdbot-integration/journal-scout.js:222-239 | four header lines and nine lines per paper |
| JournalRender.ReportHeader | clawdbot-integration/journal-scout.js:222-253 | the report opens with `# <Category> — <date>`, a blank line, the count sentence naming the number of papers, and a blank line |
| JournalRender.PaperBlock | clawdbot-integration/journal-scout.js:229-268 | paper `i` occupies its own nine lines, in input order, starting with `### <title>` and ending with `---` and a blank line |
| JournalRender.CitationSuffix | clawdbot-integration/journal-scout.js:232-260 | only the business renderer appends " \| N citations", and only for a non-zero count, which reads back as N |
| RenderParse.HeaderCandidate | clawdbot-integration/journal-scout.js:222-227 | the header section is a candidate: the report heading, with the count sentence as its description (parsed as in clawdbot-integration/sync-to-tracker.js:91-125) |
| RenderParse.PaperCandidate | clawdbot-integration/journal-scout.js:229-239 | a renderable paper's section yields one candidate: its title and the metadata, link and abstract lines (parsed as in clawdbot-integration/sync-to-tracker.js:91-125) |
| RenderParse.PapersSections | clawdbot-integration/journal-scout.js:229-239 | each rendered paper is one section, in order (parsed as in clawdbot-integration/sync-to-tracker.js:88) |
| RenderParse.ReportSections | clawdbot-integration/journal-scout.js:218-242 | a rendered report splits into the header section, then one section per paper (parsed as in clawdbot-integration/sync-to-tracker.js:88) |
| RenderParse.PaperCandidates | clawdbot-integration/journal-scout.js:229-239 | no paper section trips the latch, and their candidates are the papers' opportunities, in order (parsed as in clawdbot-integration/sync-to-tracker.js:89-125) |
| RenderParse.CountLineNamesDatabase | clawdbot-integration/journal-scout.js:225-251 | the count sentence names PubMed or Semantic Scholar |
| RenderParse.RenderedTitle | clawdbot-integration/journal-scout.js:222-248 | the parsed title of a rendered report is its heading text (parsed as in clawdbot-integration/sync-to-tracker.js:64-65) |
| RenderParse.RenderedSource | clawdbot-integration/journal-scout.js:225-251 | a rendered report is always classified as journal (parsed as in clawdbot-integration/sync-to-tracker.js:69-73) |
| RenderParse.HeaderThenPapers | clawdbot-integration/sync-to-tracker.js:89-127 | with no stop section, the candidates are the first section's followed by the rest's |
| RenderParse.RenderedExtract | clawdbot-integration/journal-scout.js:218-242 | the candidates of a rendered report are the header's and then each paper's, in input order (parsed as in clawdbot-integration/sync-to-tracker.js:88-127) |
| RenderParse.RenderThenParse | clawdbot-integration/journal-scout.js:218-271 | render then parse: a journal report titled by its heading whose opportunities are the header section's and then one per paper, in order (parsed as in clawdbot-integration/sync-to-tracker.js:60-130) |
| Stats.CalendarMonth | src/app/api/stats/route.ts:92-94 | `new Date(y, m, 1)` is a valid month whose index is the full year times 12 plus `m`: months outside 0..11 carry into the year |
| Stats.Since | src/app/api/stats/route.ts:81-87 | the query keeps only reports on or after the window start, and no more reports than it is given |
| Stats.ReportsOverTime | src/app/api/stats/route.ts:77-106 | the loop from 5 down to 0 pushes exactly the specification buckets |
| Stats.BucketsStep | src/app/api/stats/route.ts:91-103 | pushing the bucket `i` months back extends the buckets pushed so far |
| Stats.BucketsConsecutive | src/app/api/stats/route.ts:89-105 | exactly six buckets, for consecutive months, oldest first, the last being the current month |
| Stats.IndexInjective | src/app/api/stats/route.ts:99 | two valid months with the same index are the same month |
| Stats.JanuaryWraps | src/app/api/stats/route.ts:79-92 | in January the window starts in August of the year before, and the month before is December of that year |
| Stats.BucketsDistinct | src/app/api/stats/route.ts:91-100 | different buckets stand for different months |
| Stats.CountsAllReports | src/app/api/stats/route.ts:79-100 | each bucket's count is the number of all reports of its month: the query drops none that a bucket would count |
| Stats.BucketTotal | src/app/api/stats/route.ts:97-100 | each report lands in at most one bucket: the six counts add up to at most the number of reports |
| Stats.LabelFormat | src/app/api/stats/route.ts:95 | the label is `YYYY-MM`: the year, a dash, and the month number padded to two digits |
| Stats.TotalTweetsIsSum | src/app/api/stats/route.ts:34 | the total is the sum with null counts read as 0, and 0 with no reports |
| Stats.FetchActiveBuildCount | src/app/api/stats/route.ts:54-75 | the length of the array the queue returns when a URL is set and the reply is ok; 0 on every other path, including the catch |
| Tracker.CreateBuildStep | src/app/api/builds/route.ts:36-87 | a failed request leaves the tables unchanged, and a successful one answers 201; each of the two lookups and the transaction may throw, at its own place in the guard order |
| Tracker.CreateBuildOutcome | src/app/api/builds/route.ts:41-82 | a build is created exactly when every guard passes and none of the three database calls throws; then one pending build, named after the opportunity, is appended for it, only that opportunity's status changes to "in_progress", and the reports are untouched |
| Tracker.MissingOpportunityId | src/app/api/builds/route.ts:39-43 | a falsy or missing opportunityId is a 400 before any lookup, with the tables unchanged |
| Tracker.LookupFailureFirst | src/app/api/builds/route.ts:45-48 | a throwing opportunity lookup is a 500 with the tables unchanged, before the 404 and 409 guards |
| Tracker.UnknownOpportunity | src/app/api/builds/route.ts:46-52 | once the opportunity lookup answers, an opportunity that is not stored is a 404 with the tables unchanged, whatever the later calls would do |
| Tracker.SecondBuildConflicts | src/app/api/builds/route.ts:55-61 | once both lookups answer, a second build for the same opportunity is a 409 and changes nothing |
| Tracker.CreateBuildConsistent | src/app/api/builds/route.ts:55-80 | every step keeps the tables consistent, so there is never more than one build per opportunity |
| Tracker.NewBuildListedFirst | src/app/api/builds/route.ts:7-82 | the build just created heads the dashboard list |
| Tracker.CountOrZero | src/app/api/reports/route.ts:65 | `tweetCount ?? 0`: missing and null store 0, an integral number is stored, anything else fails |
| Tracker.OpportunityRow | src/app/api/opportunities/route.ts:52-61 | a stored row carries the posted title, and its reportId, when set, names a stored report |
| Tracker.DateArg | src/app/api/reports/route.ts:61 | the posted date is accepted exactly when it is a string, a number, null or a boolean, and keeps the posted value; a missing date is refused, and so are arrays and objects, though `new Date` may accept some arrays |
| Tracker.ReportRow | src/app/api/reports/route.ts:59-68 | a stored row carries the posted title, source, content and date |
| Tracker.CreateOpportunityStep | src/app/api/opportunities/route.ts:45-75 | an auth failure is answered as the gate answers it, with nothing created; a failure leaves the tables unchanged; a success stores the row and answers 201 with the row joined to its stored report, or to null when it has no reportId |
| Tracker.CreateReportStep | src/app/api/reports/route.ts:52-78 | the same for reports |
| Tracker.OpportunityDefaults | src/app/api/opportunities/route.ts:52-61 | a title alone gets null description, source and notes, status "new" and priority "medium" |
| Tracker.EmptyTextKept | src/app/api/opportunities/route.ts:57-58 | `??` is not `\|\|`: an empty status or priority is kept |
| Tracker.NullCountStoredAsZero | src/app/api/reports/route.ts:65-66 | the null count the sync script posts (clawdbot-integration/sync-to-tracker.js:188) is stored as 0, a posted count as is, the file path as null, and a date posted as a string, a number or null as posted |
| Tracker.CreateRowsConsistent | src/app/api/opportunities/route.ts:52-61 | new opportunity rows, and new report rows (src/app/api/reports/route.ts:59-68), keep the tables consistent |
| Tracker.Store.CreateBuild | src/app/api/builds/route.ts:36-87 | the handler, guard by guard, changes the tables and answers exactly as `CreateBuildStep` |
| Tracker.Store.ListBuilds | src/app/api/builds/route.ts:4-34 | a database failure answers both lists empty; otherwise the builds newest first, and the queue body only when a URL is set and the queue answered ok with a decodable body, else an empty list |
| Tracker.Store.CreateOpportunity | src/app/api/opportunities/route.ts:45-75 | the handler changes the tables and answers exactly as `CreateOpportunityStep` |
| Tracker.Store.CreateReport | src/app/api/reports/route.ts:52-78 | the handler changes the tables and answers exactly as `CreateReportStep` |
| Filters.OpportunityFilterSelects | src/app/api/opportunities/route.ts:12-25 | the filter selects exactly the opportunities whose source is one of the comma-separated parts and whose status and priority are the given ones; a parameter absent or empty selects everything |
| Filters.OpportunityWhereOf | src/app/api/opportunities/route.ts:12-25 | `where`, filled key by key, is exactly `OpportunityFilter` |
| Filters.NoParametersSelectAll | src/app/api/opportunities/route.ts:12 | with no parameters the filter is empty and selects every opportunity |
| Filters.SourceSelectsParts | src/app/api/opportunities/route.ts:14-17 | the source filter selects exactly the opportunities whose source is one of the comma-separated parts, for one part as for several |
| Filters.EmptyParametersIgnored | src/app/api/opportunities/route.ts:19-25 | an empty status or priority filters nothing |
| Filters.ReportWhereOf | src/app/api/reports/route.ts:12-30 | `where` and `where.date`, built by conditional assignment, are exactly `ReportFilter` |
| Filters.SearchSelectsContaining | src/app/api/reports/route.ts:14-20 | the search selects exactly the reports whose title, content or source contains it, ignoring case; without a search every report passes |
| Filters.KeysIndependent | src/app/api/reports/route.ts:14-30 | the search and the date range are independent keys |
| Auth.RemoveFirst | src/lib/auth.ts:11 | `replace` with a string pattern removes exactly the first occurrence and leaves text without one unchanged |
| Auth.RequireApiKey | src/lib/auth.ts:3-18 | 500 without a configured key; otherwise authorized exactly when the provided value equals the key, and 401 in every other case |
| Auth.UnconfiguredRefusesAll | src/lib/auth.ts:4-7 | an unset or empty key refuses every request with 500, whatever its headers |
| Auth.ApiKeyHeaderWins | src/lib/auth.ts:9-11 | whenever `x-api-key` is present, `authorization` plays no part |
| Auth.EmptyApiKeyHeaderRefused | src/lib/auth.ts:9-15 | an empty `x-api-key` is refused even beside a valid bearer token |
| Auth.RemoveLeadingBearer | src/lib/auth.ts:11 | a leading "Bearer " is removed |
| Auth.BearerTokenAccepted | src/lib/auth.ts:9-17 | `Authorization: Bearer <key>` alone is authorized |
| Auth.DoubledBearerRefused | src/lib/auth.ts:11-15 | only the first "Bearer " is removed, so a doubled prefix is refused |
| Auth.BareTokenAccepted | src/lib/auth.ts:9-17 | a bare key in `authorization` is accepted too |
| AutoLink.SchemeAt | src/components/markdown.tsx:8 | the character tests for the scheme are exactly an occurrence of "http://" or "https://" |
| AutoLink.SchemeEnd | src/components/markdown.tsx:8 | `https?:\/\/` matches exactly when one of the schemes starts there, and ends 7 or 8 characters later |
| AutoLink.UrlRunSpan | src/components/markdown.tsx:8 | the greedy run holds address characters only and stops at whitespace, `)`, `<`, `>` or the end |
| AutoLink.MatchAtSpec | src/components/markdown.tsx:8 | the scanner finds a match exactly where the regular expression can start one, and its end is that match's end |
| AutoLink.MatchUnique | src/components/markdown.tsx:8 | at one position there is at most one match |
| AutoLink.PiecesCover | src/components/markdown.tsx:7-10 | every character outside a match is kept, in order: the pieces give back the text |
| AutoLink.PiecesScan | src/components/markdown.tsx:7-10 | matches are found left to right and do not overlap, and no position where a match starts is copied as a character |
| AutoLink.ScanUnique | src/components/markdown.tsx:7-10 | there is only one such scan: the rewrite is determined by the text |
| AutoLink.ScanHead | src/components/markdown.tsx:7-10 | the first piece is the finding at the start, and the rest scan on from its end |
| AutoLink.MatchWellFormed | src/components/markdown.tsx:8 | every match is the scheme followed by at least one address character, and the character after it ends an address |
| AutoLink.LinksMaximal | src/components/markdown.tsx:8-9 | each link is a well-formed address, the piece after it is a character that ends an address, and the piece before it is never `(`, so an existing link target is not touched |
| AutoLink.NoSchemeAt | src/components/markdown.tsx:8 | no address starts at a character that ends an address |
| AutoLink.NoMatchAllPlain | src/components/markdown.tsx:7-10 | where no match starts, the text is returned as it is |
| AutoLink.NoAddressUnchanged | src/components/markdown.tsx:7-10 | text without "http://" and "https://" is returned unchanged |

## Left out

- Network, file and process I/O are not modelled: `fetch`, `sleep`, the PubMed and Semantic Scholar requests and their URL and date building, `post`, both `main` functions, the `execSync` hand-off, the environment checks and `process.exit`. The report date, `DAYS_BACK`, "now", the configured keys and URLs, and the replies of the queue are parameters.
- The sync sequencing is not modelled. A failing post ends the run.
- `JSON.parse`, `request.json()` and `response.json()` are outside the model: bodies arrive decoded, with None for a body that does not decode. `JSON.stringify` of the JSON report's fallback body is kept as an opaque value.
- ReportParser.CountFrom: counts are exact integers. `parseInt` returns a double, so a digit run above 2^53 is rounded, and that is not modelled.
- JournalRender.CitationSuffix: printed numbers are exact decimal digits (`Text.NatToString`, `Text.IntToString`), so "reads back as N" holds for every N. A template literal prints a number from 1e21 up in exponent form, and that is not modelled; the same holds for the Semantic Scholar year, the paper counts and the round trip of `RenderParse.RenderThenParse`.
- Strings are sequences of characters, with ASCII case folding. Unicode case mapping and UTF-16 code units are not modelled.
- The mis-encoded emoji alternatives of the `Priority:` expression are modelled as never matching.
- The unused `oppPatterns` array has no effect and is not modelled.
- PubMed records carry a citation count of 0. The health renderer never prints it.
- The database is three abstract tables. The model leaves out:
  - Prisma's schema validation, beyond the column types the routes rely on;
  - the `Date` parsing of filter bounds, which are kept as the given text;
  - the width of integer columns;
  - the ordering by `updatedAt` and `date` in the list routes;
  - what the date bounds select;
  - the remaining queries of the stats route: totals, recent lists and the aggregate call itself.
- Fresh row ids are parameters. So is whether each database call throws: the create of the opportunity and report routes, and the two lookups and the transaction of the build route.
- Header names are taken as already matched. `headers.get` ignores case.
- Stats.BucketsConsecutive: the last bucket is shown to be the current month only for years outside 0..99, where `new Date` maps 0..99 to 1900..1999. Time zones are not modelled.
- A `DAYS_BACK` that is not a number is not modelled. The count sentence takes any integer.
- Tracker.Store.CreateOpportunity: requires a fresh id, as the database assigns one.
- Tracker.Store.CreateReport: requires a fresh id, as the database assigns one.
- Tracker.ReportRow: a posted string or number is stored as posted. Which strings and numbers `new Date` turns into an Invalid Date, which the insert refuses, is not modelled.
- Tracker.DateArg: refuses every array, though `new Date` accepts an array whose text is a date.
- JournalScout.ScholarPapers: the response body is taken to be an object whose `data` is an array or falsy, and whose `authors` fields are arrays or falsy. A `null` body, a truthy non-array `data`, and an abstract that is not a string are not modelled.
- React pages and components are not modelled, beyond `autoLinkUrls`. Neither are `patch-analyzer.js` and `next.config.mjs`.
