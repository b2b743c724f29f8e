/** The `where` objects the two list routes hand to the database:
    `GET /api/opportunities` (`src/app/api/opportunities/route.ts`) and
    `GET /api/reports` (`src/app/api/reports/route.ts`). A query parameter is None when
    `searchParams.get` returns `null`; a parameter is used only when it is truthy, that
    is present and non-empty. */
module Filters {
  import opened Text
  import opened Tracker

  predicate Given(p: Option<string>) {
    p.Some? && p.value != []
  }

  // ---------------------------------------------------------------------------
  // GET /api/opportunities

  /** `where.source`: `{ in: sources }` for a list, the plain string for equality. */
  datatype SourceFilter = SourceIn(sources: seq<string>) | SourceIs(source: string)

  /** The keys of `where`; None is a key that was never set. */
  datatype OpportunityWhere = OpportunityWhere(
    source: Option<SourceFilter>, status: Option<string>, priority: Option<string>)

  /** The filter for the `status`, `priority` and `source` parameters: `source` is split
      on ","; more than one part is a membership test, a single part an equality test. */
  function OpportunityFilter(status: Option<string>, priority: Option<string>, source: Option<string>): (w: OpportunityWhere)
    ensures w.source.Some? <==> Given(source)
    ensures Given(source) && |Split(source.value, ",")| > 1 ==> w.source == Some(SourceIn(Split(source.value, ",")))
    ensures Given(source) && |Split(source.value, ",")| == 1 ==> w.source == Some(SourceIs(source.value))
    ensures w.status.Some? <==> Given(status)
    ensures w.status.Some? ==> w.status == status
    ensures w.priority.Some? <==> Given(priority)
    ensures w.priority.Some? ==> w.priority == priority
  {
    var sources := if Given(source) then Split(source.value, ",") else [];
    OpportunityWhere(
      if !Given(source) then None
      else if |sources| > 1 then Some(SourceIn(sources))
      else Some(SourceIs(source.value)),
      if Given(status) then status else None,
      if Given(priority) then priority else None)
  }

  /** `GET /api/opportunities` fills `where` key by key. */
  method OpportunityWhereOf(status: Option<string>, priority: Option<string>, source: Option<string>)
    returns (w: OpportunityWhere)
    ensures w == OpportunityFilter(status, priority, source)
  {
    w := OpportunityWhere(None, None, None);
    if source.Some? && source.value != [] {
      var sources := Split(source.value, ",");
      w := w.(source := Some(if |sources| > 1 then SourceIn(sources) else SourceIs(source.value)));
    }
    if status.Some? && status.value != [] {
      w := w.(status := status);
    }
    if priority.Some? && priority.value != [] {
      w := w.(priority := priority);
    }
  }

  /** The rows a `where` selects: every key that is set must hold. */
  predicate OpportunitySelected(w: OpportunityWhere, o: Opportunity) {
    && (w.source.Some? ==>
          match w.source.value
          case SourceIn(ss) => o.source.Some? && o.source.value in ss
          case SourceIs(s) => o.source == Some(s))
    && (w.status.Some? ==> o.status == w.status.value)
    && (w.priority.Some? ==> o.priority == w.priority.value)
  }

  /** A single part is the whole parameter. */
  lemma SplitSingle(s: string, sep: string)
    requires |sep| > 0 && |Split(s, sep)| == 1
    ensures Split(s, sep) == [s]
  { }

  /** With no parameters nothing is filtered out. */
  lemma NoParametersSelectAll(o: Opportunity)
    ensures OpportunityFilter(None, None, None) == OpportunityWhere(None, None, None)
    ensures OpportunitySelected(OpportunityFilter(None, None, None), o)
  { }

  /** The source filter selects exactly the opportunities whose source is one of the
      comma-separated parts, for one part as for several. */
  lemma SourceSelectsParts(source: string, o: Opportunity)
    requires source != []
    ensures OpportunitySelected(OpportunityFilter(None, None, Some(source)), o) <==>
              o.source.Some? && o.source.value in Split(source, ",")
  {
    if |Split(source, ",")| == 1 {
      SplitSingle(source, ",");
    }
  }

  /** The filter selects exactly the opportunities that match every given parameter: the
      source is one of the comma-separated parts, and the status and priority are the
      given ones; a parameter that is absent or empty selects everything. */
  lemma OpportunityFilterSelects(status: Option<string>, priority: Option<string>, source: Option<string>, o: Opportunity)
    ensures OpportunitySelected(OpportunityFilter(status, priority, source), o) <==>
              (Given(source) ==> o.source.Some? && o.source.value in Split(source.value, ","))
              && (Given(status) ==> o.status == status.value)
              && (Given(priority) ==> o.priority == priority.value)
  {
    if Given(source) && |Split(source.value, ",")| == 1 {
      SplitSingle(source.value, ",");
    }
  }

  /** An empty `status` or `priority` parameter filters nothing. */
  lemma EmptyParametersIgnored(source: Option<string>)
    ensures OpportunityFilter(Some(""), Some(""), source) == OpportunityFilter(None, None, source)
  { }

  // ---------------------------------------------------------------------------
  // GET /api/reports

  datatype ReportField = Title | Content | Source

  /** `{ field: { contains: text, mode: "insensitive" } }` */
  datatype FieldContains = FieldContains(field: ReportField, text: string)

  /** `where.date`: the bound texts handed to `new Date`, each key only when set. */
  datatype DateRange = DateRange(gte: Option<string>, lte: Option<string>)

  datatype ReportWhere = ReportWhere(or: Option<seq<FieldContains>>, date: Option<DateRange>)

  /** The filter for the `search`, `from` and `to` parameters. */
  function ReportFilter(search: Option<string>, from: Option<string>, to: Option<string>): (w: ReportWhere)
    ensures w.or.Some? <==> Given(search)
    ensures Given(search) ==>
              w.or == Some([FieldContains(Title, search.value), FieldContains(Content, search.value),
                            FieldContains(Source, search.value)])
    ensures w.date.Some? <==> Given(from) || Given(to)
    ensures w.date.Some? ==> (w.date.value.gte.Some? <==> Given(from)) && (w.date.value.lte.Some? <==> Given(to))
    ensures w.date.Some? && Given(from) ==> w.date.value.gte == from
    ensures w.date.Some? && Given(to) ==> w.date.value.lte == to
  {
    ReportWhere(
      if Given(search) then
        Some([FieldContains(Title, search.value), FieldContains(Content, search.value),
              FieldContains(Source, search.value)])
      else None,
      if Given(from) || Given(to) then
        Some(DateRange(if Given(from) then from else None, if Given(to) then to else None))
      else None)
  }

  /** `GET /api/reports` sets `where.OR`, then creates `where.date` and fills its bounds. */
  method ReportWhereOf(search: Option<string>, from: Option<string>, to: Option<string>)
    returns (w: ReportWhere)
    ensures w == ReportFilter(search, from, to)
  {
    w := ReportWhere(None, None);
    if search.Some? && search.value != [] {
      w := w.(or := Some([FieldContains(Title, search.value), FieldContains(Content, search.value),
                          FieldContains(Source, search.value)]));
    }
    if (from.Some? && from.value != []) || (to.Some? && to.value != []) {
      var date := DateRange(None, None);
      if from.Some? && from.value != [] {
        date := date.(gte := from);
      }
      if to.Some? && to.value != [] {
        date := date.(lte := to);
      }
      w := w.(date := Some(date));
    }
  }

  function FieldOf(r: Report, f: ReportField): string {
    match f
    case Title => r.title
    case Content => r.content
    case Source => r.source
  }

  /** A report passes the `OR` when one of its conditions holds. */
  predicate SearchSelected(w: ReportWhere, r: Report) {
    w.or.Some? ==> exists k :: 0 <= k < |w.or.value| && ContainsCI(FieldOf(r, w.or.value[k].field), w.or.value[k].text)
  }

  /** The search selects exactly the reports whose title, content or source contains the
      search text, ignoring case; without a search every report passes. */
  lemma SearchSelectsContaining(search: Option<string>, from: Option<string>, to: Option<string>, r: Report)
    ensures !Given(search) ==> SearchSelected(ReportFilter(search, from, to), r)
    ensures Given(search) ==>
              (SearchSelected(ReportFilter(search, from, to), r) <==>
                 ContainsCI(r.title, search.value) || ContainsCI(r.content, search.value)
                 || ContainsCI(r.source, search.value))
  {
    if Given(search) {
      var cs := ReportFilter(search, from, to).or.value;
      assert FieldOf(r, cs[0].field) == r.title && FieldOf(r, cs[1].field) == r.content
          && FieldOf(r, cs[2].field) == r.source;
    }
  }

  /** The search and the date range are independent keys. */
  lemma KeysIndependent(search: Option<string>, from: Option<string>, to: Option<string>)
    ensures ReportFilter(search, from, to).or == ReportFilter(search, None, None).or
    ensures ReportFilter(search, from, to).date == ReportFilter(None, from, to).date
  { }
}
