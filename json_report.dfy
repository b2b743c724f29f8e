/** The JSON half of the report parser in `clawdbot-integration/sync-to-tracker.js`
    (`parseJsonReport`): fallback chains over field names that rely on JavaScript
    truthiness, and the loop that turns each item into an opportunity. The text has
    already been decoded; the current date arrives as a parameter. */
module JsonReport {
  import opened Text
  import opened Json
  import ReportParser

  type Tier = ReportParser.Tier

  /** The report body: a field's value, or `JSON.stringify(data, null, 2)` kept opaque. */
  datatype Body = Field(value: Json) | Stringified(data: Json)

  datatype JsonOpportunity = JsonOpportunity(title: Json, description: Json, source: Json, priority: Tier)

  datatype JsonReport = JsonReport(
    title: Json,
    content: Body,
    source: Json,
    tweetCount: Json,
    opportunities: seq<JsonOpportunity>)

  /** A property read on `null`, or a `for…of` over a value that is not iterable, throws. */
  datatype Outcome = Parsed(report: JsonReport) | TypeError

  function DefaultTitle(today: string): string {
    "Scout Analysis - " + today
  }

  /** `for (const item of items)`: arrays yield their elements, strings their characters
      as one-character strings; numbers, `true` and objects are not iterable. */
  function Iterate(items: Json): (r: Option<seq<Json>>)
    ensures items.JArr? ==> r == Some(items.items)
    ensures items.JStr? ==> (r.Some? && |r.value| == |items.s|
      && forall i :: 0 <= i < |items.s| ==> r.value[i] == JStr([items.s[i]]))
    ensures !items.JArr? && !items.JStr? ==> r.None?
  {
    match items
    case JArr(xs) => Some(xs)
    case JStr(s) => Some(seq(|s|, i requires 0 <= i < |s| => JStr([s[i]])))
    case _ => None
  }

  /** `(item.priority || item.difficulty === 'easy') ? 'build_now' : 'backlog'`:
      the conditional tests the value the `||` produces. */
  function ItemPriority(item: Json): Tier {
    var easy := Some(JBool(Get(item, "difficulty") == Some(JStr("easy"))));
    if Present(Or(Get(item, "priority"), easy)) then ReportParser.BuildNow else ReportParser.Backlog
  }

  function ItemOpportunity(item: Json, source: Json): JsonOpportunity {
    JsonOpportunity(
      FirstTruthy([Get(item, "title"), Get(item, "name"), Get(item, "whatItIs")], JStr("Untitled")),
      FirstTruthy([Get(item, "description"), Get(item, "opportunity"), Get(item, "summary")], JStr("")),
      source,
      ItemPriority(item))
  }

  /** The items list: the first truthy of four field names, otherwise an empty array. */
  function ItemsValue(data: Json): Json {
    FirstTruthy([Get(data, "opportunities"), Get(data, "findings"), Get(data, "signals"), Get(data, "items")], JArr([]))
  }

  function SourceValue(data: Json): Json {
    FirstTruthy([Get(data, "source")], JStr("twitter"))
  }

  function TitleValue(data: Json, today: string): Json {
    FirstTruthy([Get(data, "title"), Get(data, "reportTitle")], JStr(DefaultTitle(today)))
  }

  function CountValue(data: Json): Json {
    FirstTruthy([Get(data, "tweetCount"), Get(data, "totalTweets")], JNull)
  }

  function BodyValue(data: Json): Body {
    if Present(Get(data, "summary")) then Field(Get(data, "summary").value)
    else if Present(Get(data, "content")) then Field(Get(data, "content").value)
    else Stringified(data)
  }

  function ItemOpportunityOf(source: Json): Json -> JsonOpportunity {
    item => ItemOpportunity(item, source)
  }

  /** One opportunity per item, in order, or None when an item is `null`. */
  function ItemOpportunities(xs: seq<Json>, source: Json): Option<seq<JsonOpportunity>> {
    if exists i | 0 <= i < |xs| :: xs[i].JNull? then None
    else Some(Map(xs, ItemOpportunityOf(source)))
  }

  /** What `parseJsonReport` returns for decoded data, or the error it throws. */
  function ParseJson(data: Json, today: string): Outcome {
    if data.JNull? then TypeError
    else
      match Iterate(ItemsValue(data))
      case None => TypeError
      case Some(xs) =>
        match ItemOpportunities(xs, SourceValue(data))
        case None => TypeError
        case Some(ops) => Parsed(JsonReport(TitleValue(data, today), BodyValue(data), SourceValue(data), CountValue(data), ops))
  }

  /** `parseJsonReport`, with its item loop. */
  method ParseJsonReport(data: Json, today: string) returns (r: Outcome)
    ensures r == ParseJson(data, today)
  {
    if data.JNull? {
      return TypeError;
    }
    var title := TitleValue(data, today);
    var source := SourceValue(data);
    var tweetCount := CountValue(data);
    var body := BodyValue(data);
    var opportunities: seq<JsonOpportunity> := [];
    var items := Iterate(ItemsValue(data));
    if items.None? {
      return TypeError;
    }
    var xs := items.value;
    assert xs[..0] == [];
    for i := 0 to |xs|
      invariant ItemOpportunities(xs[..i], source) == Some(opportunities)
    {
      var item := xs[i];
      ItemOpportunitiesStep(xs, i, source, opportunities);
      if item.JNull? {
        return TypeError;
      }
      opportunities := opportunities + [ItemOpportunity(item, source)];
    }
    assert xs[..|xs|] == xs;
    r := Parsed(JsonReport(title, body, source, tweetCount, opportunities));
  }

  /** One more item: a `null` item makes the whole loop throw, any other item adds its
      opportunity. */
  lemma ItemOpportunitiesStep(xs: seq<Json>, i: nat, source: Json, ops: seq<JsonOpportunity>)
    requires i < |xs| && ItemOpportunities(xs[..i], source) == Some(ops)
    ensures xs[i].JNull? ==> ItemOpportunities(xs, source).None?
    ensures !xs[i].JNull? ==> ItemOpportunities(xs[..i + 1], source) == Some(ops + [ItemOpportunity(xs[i], source)])
  {
    var ys := xs[..i + 1];
    assert ys == xs[..i] + [xs[i]];
    if !xs[i].JNull? {
      forall j | 0 <= j < |ys| ensures !ys[j].JNull? {
        if j < i { assert ys[j] == xs[..i][j]; }
      }
      MapSnoc(xs[..i], xs[i], ItemOpportunityOf(source));
    }
  }

  // ---------------------------------------------------------------------------
  // Properties

  /** The title is `title` when truthy, else `reportTitle` when truthy, else the dated default. */
  lemma TitleFallback(data: Json, today: string)
    requires ParseJson(data, today).Parsed?
    ensures var t := ParseJson(data, today).report.title;
      (Present(Get(data, "title")) ==> t == Get(data, "title").value)
      && (!Present(Get(data, "title")) && Present(Get(data, "reportTitle")) ==> t == Get(data, "reportTitle").value)
      && (!Present(Get(data, "title")) && !Present(Get(data, "reportTitle")) ==> t == JStr(DefaultTitle(today)))
  {
    var vs := [Get(data, "title"), Get(data, "reportTitle")];
    if Present(vs[0]) {
      FirstTruthyPicksFirst(vs, JStr(DefaultTitle(today)), 0);
    } else if Present(vs[1]) {
      FirstTruthyPicksFirst(vs, JStr(DefaultTitle(today)), 1);
    }
  }

  /** A count of 0 is falsy, so with no truthy `totalTweets` the count becomes `null`;
      a non-zero count is kept. */
  lemma ZeroCountBecomesNull(data: Json, today: string)
    requires ParseJson(data, today).Parsed?
    ensures Get(data, "tweetCount") == Some(JNum(0.0)) && !Present(Get(data, "totalTweets"))
      ==> ParseJson(data, today).report.tweetCount == JNull
    ensures forall n: real :: (n != 0.0 && Get(data, "tweetCount") == Some(JNum(n))
      ==> ParseJson(data, today).report.tweetCount == JNum(n))
  {
    var vs := [Get(data, "tweetCount"), Get(data, "totalTweets")];
    if Present(vs[0]) {
      FirstTruthyPicksFirst(vs, JNull, 0);
    }
  }

  /** An empty `opportunities` array is truthy, so it wins over non-empty `findings`,
      `signals` or `items`, and the report has no opportunities. */
  lemma EmptyArrayWins(data: Json, today: string)
    requires Get(data, "opportunities") == Some(JArr([]))
    ensures ParseJson(data, today).Parsed?
    ensures ParseJson(data, today).report.opportunities == []
  {
    var vs := [Get(data, "opportunities"), Get(data, "findings"), Get(data, "signals"), Get(data, "items")];
    FirstTruthyPicksFirst(vs, JArr([]), 0);
  }

  /** An item is `build_now` exactly when its `priority` is truthy or its difficulty is
      the string "easy"; any truthy priority, even "low", counts. */
  lemma ItemPriorityRule(item: Json)
    ensures ItemPriority(item) == ReportParser.BuildNow
      <==> Present(Get(item, "priority")) || Get(item, "difficulty") == Some(JStr("easy"))
    ensures ItemPriority(item) == ReportParser.BuildNow || ItemPriority(item) == ReportParser.Backlog
  { }

  /** Parsed opportunities correspond one to one, in order, to the iterated items, and
      all carry the report's source. */
  lemma OpportunitiesFollowItems(data: Json, today: string)
    requires ParseJson(data, today).Parsed?
    ensures Iterate(ItemsValue(data)).Some?
    ensures var xs := Iterate(ItemsValue(data)).value; var ops := ParseJson(data, today).report.opportunities;
      |ops| == |xs| && forall i :: 0 <= i < |xs| ==> ops[i].source == SourceValue(data) && ops[i] == ItemOpportunity(xs[i], SourceValue(data))
  { }

  /** The parse throws exactly when the data is `null`, the chosen items value is not
      iterable, or one of the iterated items is `null`; in particular a truthy
      "opportunities" value that is neither an array nor a string throws, whatever the
      other three fields hold. */
  lemma ItemErrors(data: Json, today: string)
    ensures ParseJson(data, today) == TypeError <==>
      data.JNull? || Iterate(ItemsValue(data)).None?
      || exists i :: 0 <= i < |Iterate(ItemsValue(data)).value| && Iterate(ItemsValue(data)).value[i] == JNull
    ensures (Present(Get(data, "opportunities")) && !Get(data, "opportunities").value.JArr?
             && !Get(data, "opportunities").value.JStr?) ==> ParseJson(data, today) == TypeError
  {
    var vs := [Get(data, "opportunities"), Get(data, "findings"), Get(data, "signals"), Get(data, "items")];
    if Present(vs[0]) {
      FirstTruthyPicksFirst(vs, JArr([]), 0);
    }
  }
}
