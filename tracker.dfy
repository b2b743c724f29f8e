/** The three tables behind the tracker's API routes and the `POST` handlers that write
    them: `src/app/api/builds/route.ts`, and the `POST` of
    `src/app/api/opportunities/route.ts` and `src/app/api/reports/route.ts`. The request
    body arrives decoded (None when `request.json()` throws), a database error arrives as
    a flag, and the identity the database would generate arrives as a fresh parameter. */
module Tracker {
  import opened Text
  import opened Json
  import Auth

  datatype Report = Report(
    source: string, date: Json, title: string, content: string,
    tweetCount: int, filePath: Option<string>)

  datatype Opportunity = Opportunity(
    title: string, description: Option<string>, source: Option<string>,
    status: string, priority: string, notes: Option<string>, reportId: Option<string>)

  datatype Build = Build(id: string, projectName: string, status: string, opportunityId: string)

  /** A build together with the opportunity `include: { opportunity: true }` joins to it. */
  datatype BuildView = BuildView(build: Build, opportunity: Opportunity)

  /** An opportunity together with the report `include: { report: true }` joins to it
      (`null` when it has no `reportId`). */
  datatype OpportunityView = OpportunityView(opportunity: Opportunity, report: Option<Report>)

  /** The rows of the three tables; builds in the order they were created. */
  datatype Tables = Tables(
    reports: map<string, Report>, opportunities: map<string, Opportunity>, builds: seq<Build>)

  /** What a handler answers: a created row with its status, or an error body. */
  datatype Response<T> = Done(status: nat, value: T) | Failed(status: nat, error: string)

  predicate HasBuild(builds: seq<Build>, id: string) {
    exists i :: 0 <= i < |builds| && builds[i].opportunityId == id
  }

  predicate FreshBuildId(builds: seq<Build>, id: string) {
    forall i :: 0 <= i < |builds| ==> builds[i].id != id
  }

  /** The constraints the schema keeps: build ids and build `opportunityId`s are unique
      (the route looks builds up by `opportunityId` with `findUnique`), every build links
      to a stored opportunity, and every `reportId` links to a stored report. */
  predicate Consistent(t: Tables) {
    && (forall i, j :: 0 <= i < j < |t.builds| ==>
          t.builds[i].opportunityId != t.builds[j].opportunityId && t.builds[i].id != t.builds[j].id)
    && (forall i :: 0 <= i < |t.builds| ==> t.builds[i].opportunityId in t.opportunities)
    && (forall o :: o in t.opportunities && t.opportunities[o].reportId.Some? ==>
          t.opportunities[o].reportId.value in t.reports)
  }

  // ---------------------------------------------------------------------------
  // POST /api/builds

  const BuildFailed := "Failed to create build"

  /** Which of the database calls of `POST /api/builds` throw: the opportunity lookup,
      the lookup of an existing build, and the transaction. */
  datatype BuildFaults = BuildFaults(findOpportunity: bool, findBuild: bool, transaction: bool)

  const NoFaults := BuildFaults(false, false, false)

  /** `POST /api/builds`: the body is destructured (that throws on `null`), a falsy
      `opportunityId` is 400, a non-string one fails in the database (500), a failing
      opportunity lookup is 500, an unknown id is 404, a failing build lookup is 500, an
      id that already has a build is 409, and otherwise the build insert and the status
      update run in one transaction, which either fails as a whole (500) or commits
      both. The answer joins the opportunity as it was read by the insert. */
  function CreateBuildStep(t: Tables, body: Option<Json>, newId: string, faults: BuildFaults): (r: (Tables, Response<BuildView>))
    ensures r.1.Failed? ==> r.0 == t
    ensures r.1.Done? ==> r.1.status == 201
  {
    if body.None? || body.value.JNull? then (t, Failed(500, BuildFailed))
    else
      var opportunityId := Get(body.value, "opportunityId");
      if !Present(opportunityId) then (t, Failed(400, "opportunityId is required"))
      else if !opportunityId.value.JStr? || faults.findOpportunity then (t, Failed(500, BuildFailed))
      else
        var id := opportunityId.value.s;
        if id !in t.opportunities then (t, Failed(404, "Opportunity not found"))
        else if faults.findBuild then (t, Failed(500, BuildFailed))
        else if HasBuild(t.builds, id) then (t, Failed(409, "Build already exists for this opportunity"))
        else if faults.transaction then (t, Failed(500, BuildFailed))
        else
          var opportunity := t.opportunities[id];
          var b := Build(newId, opportunity.title, "pending", id);
          var opportunities := t.opportunities[id := opportunity.(status := "in_progress")];
          (Tables(t.reports, opportunities, t.builds + [b]), Done(201, BuildView(b, opportunity)))
  }

  /** The guards that let a build request through to the transaction. */
  predicate BuildAdmitted(t: Tables, body: Option<Json>, id: string) {
    body.Some? && Get(body.value, "opportunityId") == Some(JStr(id)) && id != []
    && id in t.opportunities && !HasBuild(t.builds, id)
  }

  /** A build is created exactly when the request passes every guard and no database
      call throws; then one build is appended for that opportunity, its status alone
      becomes `"in_progress"`, and nothing else changes. */
  lemma CreateBuildOutcome(t: Tables, body: Option<Json>, newId: string, faults: BuildFaults)
    ensures CreateBuildStep(t, body, newId, faults).1.Done? <==>
              (exists id :: BuildAdmitted(t, body, id)) && faults == NoFaults
    ensures forall id | BuildAdmitted(t, body, id) && faults == NoFaults ::
              var (t', r) := CreateBuildStep(t, body, newId, faults);
              && t'.builds == t.builds + [Build(newId, t.opportunities[id].title, "pending", id)]
              && t'.opportunities == t.opportunities[id := t.opportunities[id].(status := "in_progress")]
              && t'.reports == t.reports
              && r == Done(201, BuildView(t'.builds[|t.builds|], t.opportunities[id]))
  {
    if body.Some? && !body.value.JNull? {
      var opportunityId := Get(body.value, "opportunityId");
      if Present(opportunityId) && opportunityId.value.JStr? {
        assert BuildAdmitted(t, body, opportunityId.value.s) <==>
          opportunityId.value.s in t.opportunities && !HasBuild(t.builds, opportunityId.value.s);
      }
    }
  }

  /** A missing, `null`, `false`, `0` or empty `opportunityId` is a 400 before any lookup. */
  lemma MissingOpportunityId(t: Tables, fields: map<string, Json>, newId: string, faults: BuildFaults)
    requires "opportunityId" in fields ==> !Truthy(fields["opportunityId"])
    ensures CreateBuildStep(t, Some(JObj(fields)), newId, faults) == (t, Failed(400, "opportunityId is required"))
  { }

  /** A throwing opportunity lookup is a 500 that changes nothing, ahead of the 404 and
      409 guards, whatever the tables hold. */
  lemma LookupFailureFirst(t: Tables, id: string, newId: string, faults: BuildFaults)
    requires id != [] && faults.findOpportunity
    ensures CreateBuildStep(t, Some(JObj(map["opportunityId" := JStr(id)])), newId, faults)
            == (t, Failed(500, BuildFailed))
  { }

  /** An opportunity that is not stored is a 404 once its lookup answers, whether or not
      the later calls would throw. */
  lemma UnknownOpportunity(t: Tables, id: string, newId: string, faults: BuildFaults)
    requires id != [] && id !in t.opportunities && !faults.findOpportunity
    ensures CreateBuildStep(t, Some(JObj(map["opportunityId" := JStr(id)])), newId, faults)
            == (t, Failed(404, "Opportunity not found"))
  { }

  /** A second build for the same opportunity is a 409 and changes nothing, once both
      lookups answer, whether or not the transaction would throw. */
  lemma SecondBuildConflicts(t: Tables, id: string, newId: string, otherId: string, faults: BuildFaults)
    requires CreateBuildStep(t, Some(JObj(map["opportunityId" := JStr(id)])), newId, NoFaults).1.Done?
    requires !faults.findOpportunity && !faults.findBuild
    ensures var t' := CreateBuildStep(t, Some(JObj(map["opportunityId" := JStr(id)])), newId, NoFaults).0;
            CreateBuildStep(t', Some(JObj(map["opportunityId" := JStr(id)])), otherId, faults)
            == (t', Failed(409, "Build already exists for this opportunity"))
  {
    var t' := CreateBuildStep(t, Some(JObj(map["opportunityId" := JStr(id)])), newId, NoFaults).0;
    assert t'.builds[|t.builds|].opportunityId == id;
  }

  /** Every step keeps the tables consistent, so there is never more than one build per
      opportunity. */
  lemma CreateBuildConsistent(t: Tables, body: Option<Json>, newId: string, faults: BuildFaults)
    requires Consistent(t) && FreshBuildId(t.builds, newId)
    ensures Consistent(CreateBuildStep(t, body, newId, faults).0)
  {
    var (t', r) := CreateBuildStep(t, body, newId, faults);
    if r.Done? {
      var id := Get(body.value, "opportunityId").value.s;
      var b := t'.builds[|t.builds|];
      assert t'.builds == t.builds + [b] && b.id == newId && b.opportunityId == id;
      forall i | 0 <= i < |t.builds| ensures t.builds[i].opportunityId != id {
        if t.builds[i].opportunityId == id {
          assert HasBuild(t.builds, id);
        }
      }
      assert t'.reports == t.reports;
      assert forall o :: o in t'.opportunities ==> o in t.opportunities && t'.opportunities[o].reportId == t.opportunities[o].reportId;
    }
  }

  // ---------------------------------------------------------------------------
  // GET /api/builds

  /** The stored builds newest first (`orderBy: { createdAt: "desc" }`), each joined to
      its opportunity. */
  function NewestFirst(t: Tables): (r: seq<BuildView>)
    requires forall i :: 0 <= i < |t.builds| ==> t.builds[i].opportunityId in t.opportunities
    ensures |r| == |t.builds|
    ensures forall k :: 0 <= k < |r| ==> r[k].build == t.builds[|t.builds| - 1 - k]
    ensures forall k :: 0 <= k < |r| ==> r[k].opportunity == t.opportunities[r[k].build.opportunityId]
  {
    seq(|t.builds|, k requires 0 <= k < |t.builds| =>
      BuildView(t.builds[|t.builds| - 1 - k], t.opportunities[t.builds[|t.builds| - 1 - k].opportunityId]))
  }

  /** The build just created heads the dashboard list. */
  lemma NewBuildListedFirst(t: Tables, body: Option<Json>, newId: string, faults: BuildFaults)
    requires Consistent(t) && FreshBuildId(t.builds, newId)
    requires CreateBuildStep(t, body, newId, faults).1.Done?
    ensures Consistent(CreateBuildStep(t, body, newId, faults).0)
    ensures NewestFirst(CreateBuildStep(t, body, newId, faults).0)[0].build
            == CreateBuildStep(t, body, newId, faults).1.value.build
  {
    CreateBuildConsistent(t, body, newId, faults);
  }

  /** The queue answered `ok` with a body `response.json()` decodes. */
  predicate QueueDelivered(queueUrl: Option<string>, reply: QueueReply) {
    queueUrl.Some? && queueUrl.value != [] && reply.Reply? && reply.ok && reply.payload.Some?
  }

  // ---------------------------------------------------------------------------
  // POST /api/opportunities and POST /api/reports: the `??` defaults

  /** `v ?? null` for a nullable text column: `undefined` and `null` store null, a string
      is stored, anything else fails in the database (None). */
  function NullableText(v: Option<Json>): (r: Option<Option<string>>)
    ensures r == Some(None) <==> v.None? || v == Some(JNull)
    ensures forall s :: r == Some(Some(s)) <==> v == Some(JStr(s))
  {
    if v.None? || v.value.JNull? then Some(None)
    else if v.value.JStr? then Some(Some(v.value.s))
    else None
  }

  /** `v ?? d` for a text column: only `undefined` and `null` take the default. */
  function TextOr(v: Option<Json>, d: string): (r: Option<string>)
    ensures v.None? || v == Some(JNull) ==> r == Some(d)
    ensures forall s :: v == Some(JStr(s)) ==> r == Some(s)
    ensures r.None? <==> v.Some? && !v.value.JNull? && !v.value.JStr?
  {
    if v.None? || v.value.JNull? then Some(d)
    else if v.value.JStr? then Some(v.value.s)
    else None
  }

  /** A required text column: a string, or the insert fails. */
  function RequiredText(v: Option<Json>): (r: Option<string>)
    ensures r.Some? <==> v.Some? && v.value.JStr?
    ensures r.Some? ==> v == Some(JStr(r.value))
  {
    if v.Some? && v.value.JStr? then Some(v.value.s) else None
  }

  /** `v ?? 0` for the integer `tweetCount` column: `undefined` and `null` store 0, an
      integral number is stored, anything else fails in the database. */
  function CountOrZero(v: Option<Json>): (r: Option<int>)
    ensures v.None? || v == Some(JNull) ==> r == Some(0)
    ensures forall n: int :: v == Some(JNum(n as real)) ==> r == Some(n)
    ensures r.Some? ==> v.None? || v == Some(JNull) || v == Some(JNum(r.value as real))
  {
    if v.None? || v.value.JNull? then Some(0)
    else if v.value.JNum? && v.value.n.Floor as real == v.value.n then Some(v.value.n.Floor)
    else None
  }

  /** The row `prisma.opportunity.create` inserts for `body`, or None when it fails. */
  function OpportunityRow(reports: map<string, Report>, body: Json): (r: Option<Opportunity>)
    ensures r.Some? ==> Get(body, "title") == Some(JStr(r.value.title))
    ensures r.Some? && r.value.reportId.Some? ==> r.value.reportId.value in reports
  {
    var title := RequiredText(Get(body, "title"));
    var description := NullableText(Get(body, "description"));
    var source := NullableText(Get(body, "source"));
    var status := TextOr(Get(body, "status"), "new");
    var priority := TextOr(Get(body, "priority"), "medium");
    var notes := NullableText(Get(body, "notes"));
    var reportId := NullableText(Get(body, "reportId"));
    if title.None? || description.None? || source.None? || status.None? || priority.None?
       || notes.None? || reportId.None? then None
    else if reportId.value.Some? && reportId.value.value !in reports then None
    else Some(Opportunity(title.value, description.value, source.value, status.value,
                          priority.value, notes.value, reportId.value))
  }

  /** `new Date(v)` for the posted `date`, kept as the value it was built from: a string,
      a number, `null` (the epoch) and a boolean are accepted; an absent date gives an
      Invalid Date, which the insert refuses. Arrays and objects are refused here too,
      though `new Date` may accept an array whose text is a date. */
  function DateArg(v: Option<Json>): (r: Option<Json>)
    ensures r.Some? <==> v.Some? && (v.value.JStr? || v.value.JNum? || v.value.JNull? || v.value.JBool?)
    ensures r.Some? ==> v == Some(r.value)
  {
    if v.Some? && !v.value.JArr? && !v.value.JObj? then v else None
  }

  /** The row `prisma.scoutReport.create` inserts for `body`, or None when it fails. */
  function ReportRow(body: Json): (r: Option<Report>)
    ensures r.Some? ==> Get(body, "title") == Some(JStr(r.value.title))
    ensures r.Some? ==> Get(body, "source") == Some(JStr(r.value.source))
    ensures r.Some? ==> Get(body, "content") == Some(JStr(r.value.content))
    ensures r.Some? ==> Get(body, "date") == Some(r.value.date)
  {
    var source := RequiredText(Get(body, "source"));
    var date := DateArg(Get(body, "date"));
    var title := RequiredText(Get(body, "title"));
    var content := RequiredText(Get(body, "content"));
    var tweetCount := CountOrZero(Get(body, "tweetCount"));
    var filePath := NullableText(Get(body, "filePath"));
    if source.None? || date.None? || title.None? || content.None? || tweetCount.None?
       || filePath.None? then None
    else Some(Report(source.value, date.value, title.value, content.value, tweetCount.value, filePath.value))
  }

  /** `POST /api/opportunities`: the key gate answers first; then a body that does not
      decode, is `null` or does not make a valid row is 500; otherwise the row is stored
      and answered joined to its report. */
  function CreateOpportunityStep(t: Tables, apiKey: Option<string>, h: Auth.Headers, body: Option<Json>, newId: string, fails: bool): (r: (Tables, Response<OpportunityView>))
    ensures r.1.Failed? ==> r.0 == t
    ensures Auth.RequireApiKey(apiKey, h).Rejected? ==>
              r.1 == Failed(Auth.RequireApiKey(apiKey, h).status, Auth.RequireApiKey(apiKey, h).error)
    ensures r.1.Done? ==> r.1.status == 201 && r.0 == t.(opportunities := t.opportunities[newId := r.1.value.opportunity])
    ensures r.1.Done? ==> (r.1.value.report.Some? <==> r.1.value.opportunity.reportId.Some?)
    ensures r.1.Done? && r.1.value.opportunity.reportId.Some? ==>
              r.1.value.opportunity.reportId.value in t.reports
              && r.1.value.report == Some(t.reports[r.1.value.opportunity.reportId.value])
  {
    var gate := Auth.RequireApiKey(apiKey, h);
    if gate.Rejected? then (t, Failed(gate.status, gate.error))
    else if body.None? || body.value.JNull? || fails then (t, Failed(500, "Failed to create opportunity"))
    else
      match OpportunityRow(t.reports, body.value)
      case None => (t, Failed(500, "Failed to create opportunity"))
      case Some(o) =>
        var report := if o.reportId.Some? then Some(t.reports[o.reportId.value]) else None;
        (t.(opportunities := t.opportunities[newId := o]), Done(201, OpportunityView(o, report)))
  }

  /** `POST /api/reports`, in the same shape. */
  function CreateReportStep(t: Tables, apiKey: Option<string>, h: Auth.Headers, body: Option<Json>, newId: string, fails: bool): (r: (Tables, Response<Report>))
    ensures r.1.Failed? ==> r.0 == t
    ensures Auth.RequireApiKey(apiKey, h).Rejected? ==>
              r.1 == Failed(Auth.RequireApiKey(apiKey, h).status, Auth.RequireApiKey(apiKey, h).error)
    ensures r.1.Done? ==> r.1.status == 201 && r.0 == t.(reports := t.reports[newId := r.1.value])
  {
    var gate := Auth.RequireApiKey(apiKey, h);
    if gate.Rejected? then (t, Failed(gate.status, gate.error))
    else if body.None? || body.value.JNull? || fails then (t, Failed(500, "Failed to create report"))
    else
      match ReportRow(body.value)
      case None => (t, Failed(500, "Failed to create report"))
      case Some(row) => (t.(reports := t.reports[newId := row]), Done(201, row))
  }

  /** An opportunity posted with a title alone gets the documented defaults. */
  lemma OpportunityDefaults(reports: map<string, Report>, title: string)
    ensures OpportunityRow(reports, JObj(map["title" := JStr(title)]))
            == Some(Opportunity(title, None, None, "new", "medium", None, None))
  { }

  /** `??` is not `||`: an empty status or priority is kept, not replaced by the default. */
  lemma EmptyTextKept(reports: map<string, Report>, title: string)
    ensures OpportunityRow(reports, JObj(map["title" := JStr(title), "status" := JStr(""), "priority" := JStr("")]))
            == Some(Opportunity(title, None, None, "", "", None, None))
  { }

  /** The sync script posts `tweetCount: null` for a report without a count; the route
      stores 0, and a posted count is stored as is. */
  lemma NullCountStoredAsZero(source: string, date: Json, title: string, content: string, count: Option<nat>)
    requires date.JStr? || date.JNum? || date.JNull?
    ensures var body := JObj(map["source" := JStr(source), "date" := date, "title" := JStr(title),
                                 "content" := JStr(content),
                                 "tweetCount" := if count.Some? then JNum(count.value as real) else JNull]);
            ReportRow(body) == Some(Report(source, date, title, content, if count.Some? then count.value else 0, None))
  { }

  /** New rows keep the tables consistent when their identity is fresh. */
  lemma CreateRowsConsistent(t: Tables, apiKey: Option<string>, h: Auth.Headers, body: Option<Json>, newId: string, fails: bool)
    requires Consistent(t)
    ensures newId !in t.opportunities ==> Consistent(CreateOpportunityStep(t, apiKey, h, body, newId, fails).0)
    ensures Consistent(CreateReportStep(t, apiKey, h, body, newId, fails).0)
  {
    var t1 := CreateReportStep(t, apiKey, h, body, newId, fails).0;
    assert forall o :: o in t1.opportunities ==> o in t.opportunities && t1.opportunities[o] == t.opportunities[o];
    assert forall k :: k in t.reports ==> k in t1.reports;
  }

  // ---------------------------------------------------------------------------
  // The tables as the handlers see them

  class Store {
    var reports: map<string, Report>
    var opportunities: map<string, Opportunity>
    var builds: seq<Build>

    function Snapshot(): Tables
      reads this
    {
      Tables(reports, opportunities, builds)
    }

    ghost predicate Valid()
      reads this
    {
      Consistent(Snapshot())
    }

    constructor (t: Tables)
      requires Consistent(t)
      ensures Valid() && Snapshot() == t
    {
      reports := t.reports;
      opportunities := t.opportunities;
      builds := t.builds;
    }

    /** `POST /api/builds` as the route runs it, guard by guard. */
    method CreateBuild(body: Option<Json>, newId: string, faults: BuildFaults) returns (r: Response<BuildView>)
      requires Valid() && FreshBuildId(builds, newId)
      modifies this
      ensures Valid()
      ensures (Snapshot(), r) == CreateBuildStep(old(Snapshot()), body, newId, faults)
    {
      CreateBuildConsistent(Snapshot(), body, newId, faults);
      if body.None? || body.value.JNull? {
        return Failed(500, BuildFailed);
      }
      var opportunityId := Get(body.value, "opportunityId");
      if !Present(opportunityId) {
        return Failed(400, "opportunityId is required");
      }
      if !opportunityId.value.JStr? || faults.findOpportunity {
        return Failed(500, BuildFailed);
      }
      var id := opportunityId.value.s;
      if id !in opportunities {
        return Failed(404, "Opportunity not found");
      }
      if faults.findBuild {
        return Failed(500, BuildFailed);
      }
      if HasBuild(builds, id) {
        return Failed(409, "Build already exists for this opportunity");
      }
      if faults.transaction {
        return Failed(500, BuildFailed);
      }
      var opportunity := opportunities[id];
      var newBuild := Build(newId, opportunity.title, "pending", id);
      builds := builds + [newBuild];
      opportunities := opportunities[id := opportunity.(status := "in_progress")];
      r := Done(201, BuildView(newBuild, opportunity));
    }

    /** `GET /api/builds`: a database failure answers both lists empty; otherwise the
        builds newest first, and the queue's body only when a queue URL is set and the
        queue answered `ok` with a decodable body, else an empty list. */
    method ListBuilds(dbFails: bool, queueUrl: Option<string>, reply: QueueReply) returns (dashboard: seq<BuildView>, queue: Json)
      requires Valid()
      ensures dbFails ==> dashboard == [] && queue == JArr([])
      ensures !dbFails ==> dashboard == NewestFirst(Snapshot())
      ensures !dbFails && QueueDelivered(queueUrl, reply) ==> queue == reply.payload.value
      ensures !dbFails && !QueueDelivered(queueUrl, reply) ==> queue == JArr([])
    {
      if dbFails {
        return [], JArr([]);
      }
      dashboard := NewestFirst(Snapshot());
      queue := JArr([]);
      if queueUrl.Some? && queueUrl.value != [] {
        if reply.Reply? && reply.ok && reply.payload.Some? {
          queue := reply.payload.value;
        }
      }
    }

    /** `POST /api/opportunities`. */
    method CreateOpportunity(apiKey: Option<string>, h: Auth.Headers, body: Option<Json>, newId: string, fails: bool)
      returns (r: Response<OpportunityView>)
      requires Valid() && newId !in opportunities
      modifies this
      ensures Valid()
      ensures (Snapshot(), r) == CreateOpportunityStep(old(Snapshot()), apiKey, h, body, newId, fails)
    {
      CreateRowsConsistent(Snapshot(), apiKey, h, body, newId, fails);
      var authError := Auth.RequireApiKey(apiKey, h);
      if authError.Rejected? {
        return Failed(authError.status, authError.error);
      }
      if body.None? || body.value.JNull? || fails {
        return Failed(500, "Failed to create opportunity");
      }
      var row := OpportunityRow(reports, body.value);
      if row.None? {
        return Failed(500, "Failed to create opportunity");
      }
      var o := row.value;
      var report := if o.reportId.Some? then Some(reports[o.reportId.value]) else None;
      opportunities := opportunities[newId := o];
      r := Done(201, OpportunityView(o, report));
    }

    /** `POST /api/reports`. */
    method CreateReport(apiKey: Option<string>, h: Auth.Headers, body: Option<Json>, newId: string, fails: bool)
      returns (r: Response<Report>)
      requires Valid() && newId !in reports
      modifies this
      ensures Valid()
      ensures (Snapshot(), r) == CreateReportStep(old(Snapshot()), apiKey, h, body, newId, fails)
    {
      CreateRowsConsistent(Snapshot(), apiKey, h, body, newId, fails);
      var authError := Auth.RequireApiKey(apiKey, h);
      if authError.Rejected? {
        return Failed(authError.status, authError.error);
      }
      if body.None? || body.value.JNull? || fails {
        return Failed(500, "Failed to create report");
      }
      var row := ReportRow(body.value);
      if row.None? {
        return Failed(500, "Failed to create report");
      }
      reports := reports[newId := row.value];
      r := Done(201, row.value);
    }
  }
}
