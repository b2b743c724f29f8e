/** The computations of `src/app/api/stats/route.ts`: the six monthly buckets of
    `getReportsOverTime`, the `?? 0` on the summed tweet counts, and the early returns of
    `fetchActiveBuildCount`. The clock, the database rows and the queue reply arrive as
    values; report dates are given as the local year and month `Date` reports for them. */
module Stats {
  import opened Text
  import opened Json

  /** A calendar month as `Date` reports it: `getFullYear()` and `getMonth()` (0 = January). */
  datatype YearMonth = YearMonth(year: int, month: int)

  predicate ValidMonth(m: YearMonth) {
    0 <= m.month < 12
  }

  /** Months counted from January of year 0. */
  function Index(m: YearMonth): int {
    m.year * 12 + m.month
  }

  /** The year `new Date(y, …)` stands for: 0 to 99 mean 1900 to 1999. */
  function FullYear(y: int): int {
    if 0 <= y <= 99 then 1900 + y else y
  }

  /** `new Date(y, m, 1)`: a month outside 0..11 carries into the year. */
  function CalendarMonth(y: int, m: int): (r: YearMonth)
    ensures ValidMonth(r) && Index(r) == FullYear(y) * 12 + m
  {
    var t := FullYear(y) * 12 + m;
    YearMonth(t / 12, t % 12)
  }

  /** `new Date(now.getFullYear(), now.getMonth() - i, 1)`. */
  function MonthsBack(now: YearMonth, i: int): YearMonth {
    CalendarMonth(now.year, now.month - i)
  }

  /** `s.padStart(n, c)`. */
  function PadStart(s: string, n: nat, c: char): (r: string)
    decreases n - |s|
  {
    if |s| >= n then s else PadStart([c] + s, n, c)
  }

  /** `${year}-${String(month + 1).padStart(2, "0")}` */
  function Label(m: YearMonth): string {
    IntToString(m.year) + "-" + PadStart(IntToString(m.month + 1), 2, '0')
  }

  datatype Bucket = Bucket(month: string, count: nat)

  /** The query `date >= sixMonthsAgo`: a date on or after the first day of `start`. */
  function Since(reports: seq<YearMonth>, start: YearMonth): (r: seq<YearMonth>)
    ensures |r| <= |reports|
    ensures forall k :: 0 <= k < |r| ==> Index(r[k]) >= Index(start)
  {
    if reports == [] then []
    else (if Index(reports[0]) >= Index(start) then [reports[0]] else []) + Since(reports[1..], start)
  }

  /** `reports.filter(r => same year && same month).length` */
  function CountIn(reports: seq<YearMonth>, m: YearMonth): nat {
    if reports == [] then 0
    else (if reports[0] == m then 1 else 0) + CountIn(reports[1..], m)
  }

  function Window(now: YearMonth): YearMonth {
    MonthsBack(now, 5)
  }

  /** The bucket of the month `i` months before `now`, counted over `fetched`. */
  function BucketAt(now: YearMonth, fetched: seq<YearMonth>, i: int): Bucket {
    Bucket(Label(MonthsBack(now, i)), CountIn(fetched, MonthsBack(now, i)))
  }

  /** The six buckets over the fetched reports, oldest first. */
  function BucketsOf(now: YearMonth, fetched: seq<YearMonth>): seq<Bucket> {
    seq(6, k requires 0 <= k < 6 => BucketAt(now, fetched, 5 - k))
  }

  /** The six buckets over the reports the query returns. */
  function Buckets(now: YearMonth, reports: seq<YearMonth>): seq<Bucket> {
    BucketsOf(now, Since(reports, Window(now)))
  }

  /** `getReportsOverTime`: query the reports since the first day of the month five
      months back, then push one bucket for `i` from 5 down to 0. */
  method ReportsOverTime(now: YearMonth, reports: seq<YearMonth>) returns (months: seq<Bucket>)
    ensures months == Buckets(now, reports)
  {
    var sixMonthsAgo := CalendarMonth(now.year, now.month - 5);
    var fetched := Since(reports, sixMonthsAgo);
    assert sixMonthsAgo == Window(now);
    months := [];
    for i := 6 downto 0
      invariant months == BucketsOf(now, fetched)[..6 - i]
    {
      var d := CalendarMonth(now.year, now.month - i);
      var monthLabel := Label(d);
      var count := CountIn(fetched, d);
      assert Bucket(monthLabel, count) == BucketAt(now, fetched, i);
      months := months + [Bucket(monthLabel, count)];
      BucketsStep(now, fetched, i);
    }
    assert BucketsOf(now, fetched)[..6] == BucketsOf(now, fetched);
  }

  /** Pushing the bucket `i` months back extends the buckets pushed so far. */
  lemma BucketsStep(now: YearMonth, fetched: seq<YearMonth>, i: nat)
    requires i < 6
    ensures BucketsOf(now, fetched)[..6 - i] == BucketsOf(now, fetched)[..5 - i] + [BucketAt(now, fetched, i)]
  {
    var b := BucketsOf(now, fetched);
    assert b[5 - i] == BucketAt(now, fetched, i);
    TakeSnoc(b, 5 - i);
  }

  // ---------------------------------------------------------------------------
  // Properties of the buckets

  /** Exactly six buckets; bucket `k` is the month `5 - k` months back, so the months
      run consecutively oldest first, and the last is the current month for any year
      outside 0..99. */
  lemma BucketsConsecutive(now: YearMonth, reports: seq<YearMonth>, k: nat)
    requires ValidMonth(now) && k < 6
    ensures |Buckets(now, reports)| == 6
    ensures Index(MonthsBack(now, 5 - k)) == FullYear(now.year) * 12 + now.month - 5 + k
    ensures k < 5 ==> Index(MonthsBack(now, 4 - k)) == Index(MonthsBack(now, 5 - k)) + 1
    ensures !(0 <= now.year <= 99) ==> MonthsBack(now, 0) == now
  {
    if !(0 <= now.year <= 99) {
      IndexInjective(MonthsBack(now, 0), now);
    }
  }

  /** Two valid months with the same index are the same month. */
  lemma IndexInjective(a: YearMonth, b: YearMonth)
    requires ValidMonth(a) && ValidMonth(b) && Index(a) == Index(b)
    ensures a == b
  { }

  /** In January the window starts in August of the year before. */
  lemma JanuaryWraps(now: YearMonth)
    requires now.month == 0 && !(0 <= now.year <= 99)
    ensures Window(now) == YearMonth(now.year - 1, 7)
    ensures MonthsBack(now, 1) == YearMonth(now.year - 1, 11)
  {
    IndexInjective(Window(now), YearMonth(now.year - 1, 7));
    IndexInjective(MonthsBack(now, 1), YearMonth(now.year - 1, 11));
  }

  /** Different buckets hold different months, so a report is counted in at most one. */
  lemma BucketsDistinct(now: YearMonth, k1: nat, k2: nat)
    requires k1 < 6 && k2 < 6 && k1 != k2
    ensures MonthsBack(now, 5 - k1) != MonthsBack(now, 5 - k2)
  {
    assert Index(MonthsBack(now, 5 - k1)) != Index(MonthsBack(now, 5 - k2));
  }

  /** Every bucket's month lies in the queried window, so the query drops no report a
      bucket would count: each count is the number of all reports of that month. */
  lemma CountsAllReports(now: YearMonth, reports: seq<YearMonth>, k: nat)
    requires k < 6
    ensures Buckets(now, reports)[k].count == CountIn(reports, MonthsBack(now, 5 - k))
  {
    var m := MonthsBack(now, 5 - k);
    assert Index(m) >= Index(Window(now));
    SinceKeeps(reports, Window(now), m);
  }

  /** Filtering on the window does not change the count of a month inside it. */
  lemma {:induction false} SinceKeeps(reports: seq<YearMonth>, start: YearMonth, m: YearMonth)
    requires Index(m) >= Index(start)
    ensures CountIn(Since(reports, start), m) == CountIn(reports, m)
    decreases |reports|
  {
    if reports != [] {
      SinceKeeps(reports[1..], start, m);
      var head := if Index(reports[0]) >= Index(start) then [reports[0]] else [];
      CountInAppend(head, Since(reports[1..], start), m);
    }
  }

  lemma {:induction false} CountInAppend(a: seq<YearMonth>, b: seq<YearMonth>, m: YearMonth)
    ensures CountIn(a + b, m) == CountIn(a, m) + CountIn(b, m)
    decreases |a|
  {
    if a == [] {
      assert a + b == b;
    } else {
      assert (a + b)[0] == a[0];
      assert (a + b)[1..] == a[1..] + b;
      CountInAppend(a[1..], b, m);
    }
  }

  /** The sum of the counts of pairwise different months. */
  function CountsOver(reports: seq<YearMonth>, ms: seq<YearMonth>): nat {
    if ms == [] then 0 else CountIn(reports, ms[0]) + CountsOver(reports, ms[1..])
  }

  predicate Distinct(ms: seq<YearMonth>) {
    forall i, j :: 0 <= i < j < |ms| ==> ms[i] != ms[j]
  }

  /** How many of `ms` equal `r`. */
  function Hits(ms: seq<YearMonth>, r: YearMonth): nat {
    if ms == [] then 0 else (if ms[0] == r then 1 else 0) + Hits(ms[1..], r)
  }

  lemma {:induction false} HitsAtMostOne(ms: seq<YearMonth>, r: YearMonth)
    requires Distinct(ms)
    ensures Hits(ms, r) <= 1
    decreases |ms|
  {
    if ms != [] {
      HitsAtMostOne(ms[1..], r);
      if ms[0] == r {
        HitsNone(ms[1..], r);
      }
    }
  }

  lemma {:induction false} HitsNone(ms: seq<YearMonth>, r: YearMonth)
    requires forall i :: 0 <= i < |ms| ==> ms[i] != r
    ensures Hits(ms, r) == 0
    decreases |ms|
  {
    if ms != [] {
      HitsNone(ms[1..], r);
    }
  }

  lemma {:induction false} CountsOverCons(r: YearMonth, rest: seq<YearMonth>, ms: seq<YearMonth>)
    ensures CountsOver([r] + rest, ms) == Hits(ms, r) + CountsOver(rest, ms)
    decreases |ms|
  {
    assert ([r] + rest)[1..] == rest;
    if ms != [] {
      CountsOverCons(r, rest, ms[1..]);
    }
  }

  /** Months that differ count disjoint sets of reports: their counts add up to at
      most the number of reports. */
  lemma {:induction false} CountsDisjoint(reports: seq<YearMonth>, ms: seq<YearMonth>)
    requires Distinct(ms)
    ensures CountsOver(reports, ms) <= |reports|
    decreases |reports|
  {
    if reports == [] {
      CountsOverEmpty(ms);
    } else {
      assert reports == [reports[0]] + reports[1..];
      CountsOverCons(reports[0], reports[1..], ms);
      HitsAtMostOne(ms, reports[0]);
      CountsDisjoint(reports[1..], ms);
    }
  }

  lemma {:induction false} CountsOverEmpty(ms: seq<YearMonth>)
    ensures CountsOver([], ms) == 0
    decreases |ms|
  {
    if ms != [] {
      CountsOverEmpty(ms[1..]);
    }
  }

  /** The months of the six buckets, oldest first. */
  function BucketMonths(now: YearMonth): seq<YearMonth> {
    seq(6, k requires 0 <= k < 6 => MonthsBack(now, 5 - k))
  }

  function SumCounts(b: seq<Bucket>): nat {
    if b == [] then 0 else b[0].count + SumCounts(b[1..])
  }

  /** Buckets counting `ms` over `rs` add up to the counts of `ms`. */
  lemma {:induction false} SumCountsOver(b: seq<Bucket>, rs: seq<YearMonth>, ms: seq<YearMonth>)
    requires |b| == |ms| && forall k :: 0 <= k < |b| ==> b[k].count == CountIn(rs, ms[k])
    ensures SumCounts(b) == CountsOver(rs, ms)
    decreases |b|
  {
    if b != [] {
      SumCountsOver(b[1..], rs, ms[1..]);
    }
  }

  /** Each report lands in at most one bucket: all six counts together are at most the
      number of reports. */
  lemma BucketTotal(now: YearMonth, reports: seq<YearMonth>)
    ensures SumCounts(Buckets(now, reports)) <= |reports|
  {
    var fetched := Since(reports, Window(now));
    BucketMonthsDistinct(now);
    CountsDisjoint(fetched, BucketMonths(now));
    BucketCounts(now, fetched);
    SumCountsOver(BucketsOf(now, fetched), fetched, BucketMonths(now));
  }

  lemma BucketMonthsDistinct(now: YearMonth)
    ensures Distinct(BucketMonths(now))
  {
    var ms := BucketMonths(now);
    forall i, j | 0 <= i < j < 6 ensures ms[i] != ms[j] {
      BucketsDistinct(now, i, j);
    }
  }

  lemma BucketCounts(now: YearMonth, fetched: seq<YearMonth>)
    ensures |BucketsOf(now, fetched)| == |BucketMonths(now)|
    ensures forall k :: 0 <= k < 6 ==> BucketsOf(now, fetched)[k].count == CountIn(fetched, BucketMonths(now)[k])
  { }

  /** The label is `YYYY-MM` for a four-digit year: the year, a dash, and the month
      number padded to two digits. */
  lemma LabelFormat(m: YearMonth)
    requires ValidMonth(m) && 1000 <= m.year <= 9999
    ensures var l := Label(m);
      |l| == 7 && l[4] == '-' && AllDigits(l[..4]) && AllDigits(l[5..])
      && DigitsValue(l[..4]) == m.year && DigitsValue(l[5..]) == m.month + 1
  {
    var y := NatToString(m.year);
    var mm := PadStart(NatToString(m.month + 1), 2, '0');
    FourDigits(m.year);
    MonthDigits(m.month + 1);
    DigitsValueOfNatToString(m.year);
    var l := Label(m);
    assert l == y + "-" + mm;
    assert l[..4] == y && l[5..] == mm;
  }

  lemma FourDigits(n: nat)
    requires 1000 <= n <= 9999
    ensures |NatToString(n)| == 4
  {
    assert NatToString(n) == NatToString(n / 10) + [DigitChar(n % 10)];
    assert NatToString(n / 10) == NatToString(n / 100) + [DigitChar(n / 10 % 10)];
    assert NatToString(n / 100) == NatToString(n / 1000) + [DigitChar(n / 100 % 10)];
  }

  /** A month number 1 to 12 pads to two digits worth that number. */
  lemma MonthDigits(n: nat)
    requires 1 <= n <= 12
    ensures var p := PadStart(NatToString(n), 2, '0'); |p| == 2 && AllDigits(p) && DigitsValue(p) == n
  {
    var s := NatToString(n);
    DigitsValueOfNatToString(n);
    if n < 10 {
      assert s == [DigitChar(n)];
      var p := ['0'] + s;
      assert PadStart(s, 2, '0') == p;
      assert p[..1] == "0";
    } else {
      assert s == NatToString(n / 10) + [DigitChar(n % 10)];
    }
  }

  // ---------------------------------------------------------------------------
  // The tweet total

  /** The database's `_sum` of a nullable column: `null` when no row holds a value. */
  function SumTweets(counts: seq<Option<int>>): Option<int> {
    if counts == [] then None
    else
      var rest := SumTweets(counts[1..]);
      if counts[0].None? then rest
      else if rest.None? then counts[0]
      else Some(counts[0].value + rest.value)
  }

  /** `tweetAgg._sum.tweetCount ?? 0` */
  function TotalTweetsScanned(sum: Option<int>): int {
    if sum.None? then 0 else sum.value
  }

  /** The counts with each `null` read as 0. */
  function SumAsZero(counts: seq<Option<int>>): int {
    if counts == [] then 0 else (if counts[0].None? then 0 else counts[0].value) + SumAsZero(counts[1..])
  }

  /** The total is the sum with missing counts read as 0, and 0 for no reports. */
  lemma {:induction false} TotalTweetsIsSum(counts: seq<Option<int>>)
    ensures TotalTweetsScanned(SumTweets(counts)) == SumAsZero(counts)
    ensures counts == [] ==> TotalTweetsScanned(SumTweets(counts)) == 0
    decreases |counts|
  {
    if counts != [] {
      TotalTweetsIsSum(counts[1..]);
    }
  }

  // ---------------------------------------------------------------------------
  // The queue service

  /** A queue URL is configured and the queue answered `ok` with a JSON array. */
  predicate QueueAnswered(queueUrl: Option<string>, reply: QueueReply) {
    queueUrl.Some? && queueUrl.value != [] && reply.Reply? && reply.ok
    && reply.payload.Some? && reply.payload.value.JArr?
  }

  /** `fetchActiveBuildCount`: 0 on every early return and in the `catch`, otherwise
      the length of the array the queue returns. */
  method FetchActiveBuildCount(queueUrl: Option<string>, reply: QueueReply) returns (n: nat)
    ensures QueueAnswered(queueUrl, reply) ==> n == |reply.payload.value.items|
    ensures !QueueAnswered(queueUrl, reply) ==> n == 0
  {
    if queueUrl.None? || queueUrl.value == [] {
      return 0;
    }
    if reply.Threw? {
      return 0;
    }
    if !reply.ok {
      return 0;
    }
    if reply.payload.None? {
      return 0;
    }
    var data := reply.payload.value;
    n := if data.JArr? then |data.items| else 0;
  }
}
