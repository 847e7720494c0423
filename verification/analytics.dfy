/**
 * The analytics queries of one link: the aggregates and classifiers of `get_analytics_data`,
 * the period dispatch of the chart endpoint, and which status each endpoint answers with.
 * Everything here reads a snapshot of the two tables.
 */
module Analytics {
  import opened Wrappers
  import opened Strings
  import opened Ordering
  import opened Tables

  // ---------------------------------------------------------------- classifiers

  const MOBILE: string := "Mobile"
  const TABLET: string := "Tablet"
  const DESKTOP: string := "Desktop"
  const MOBILE_WORDS: seq<string> := ["mobile", "iphone", "android"]
  const TABLET_WORDS: seq<string> := ["tablet", "ipad"]

  /** `LOWER(s) LIKE '%w%'` for one of the words. */
  predicate MentionsAny(s: string, words: seq<string>) {
    exists i | 0 <= i < |words| :: Contains(Lower(s), words[i])
  }

  /**
   * The `device_type` CASE: mobile words are tested first, then tablet words. A NULL user
   * agent makes every `LIKE` NULL, so it falls to the ELSE branch.
   */
  function DeviceType(userAgent: Option<string>): string {
    match userAgent
    case None => DESKTOP
    case Some(ua) =>
      if MentionsAny(ua, MOBILE_WORDS) then MOBILE
      else if MentionsAny(ua, TABLET_WORDS) then TABLET
      else DESKTOP
  }

  /**
   * The device class of a user agent: Mobile exactly when it mentions a mobile word; Tablet
   * exactly when it mentions a tablet word and no mobile word; Desktop otherwise, and always
   * for NULL.
   */
  lemma DeviceTypeFacts(userAgent: Option<string>)
    ensures DeviceType(userAgent) == MOBILE <==> userAgent.Some? && MentionsAny(userAgent.value, MOBILE_WORDS)
    ensures DeviceType(userAgent) == TABLET <==>
      userAgent.Some? && !MentionsAny(userAgent.value, MOBILE_WORDS) && MentionsAny(userAgent.value, TABLET_WORDS)
    ensures DeviceType(userAgent) == DESKTOP <==>
      userAgent.None? || (!MentionsAny(userAgent.value, MOBILE_WORDS) && !MentionsAny(userAgent.value, TABLET_WORDS))
  {
  }

  /**
   * Since mobile words are tested first, an iPad user agent that also says "Mobile" (as iPad
   * Safari's does) counts as Mobile, not Tablet.
   */
  lemma MobileWinsOverTablet(ua: string, i: nat, j: nat)
    requires i < |MOBILE_WORDS| && j < |TABLET_WORDS|
    requires Contains(Lower(ua), MOBILE_WORDS[i]) && Contains(Lower(ua), TABLET_WORDS[j])
    ensures DeviceType(Some(ua)) == MOBILE
  {
  }

  const DIRECT_BUCKET: string := "Direct"

  /** The `referrer_domain` CASE: an empty or NULL referrer is 'Direct', any other is itself. */
  function ReferrerBucket(referrer: Option<string>): (b: string)
    ensures referrer.None? || referrer == Some("") ==> b == DIRECT_BUCKET
    ensures referrer.Some? && referrer.value != "" ==> b == referrer.value
  {
    match referrer
    case None => DIRECT_BUCKET
    case Some(r) => if r == "" then DIRECT_BUCKET else r
  }

  // ---------------------------------------------------------------- get_analytics_data

  /** One row of the source statistics: clicks and distinct addresses per `source`. */
  datatype SourceStat = SourceStat(source: string, count: nat, uniqueCount: nat)

  /** One row of the daily statistics. */
  datatype DayStat = DayStat(day: int, clicks: nat, uniqueVisitors: nat)

  datatype AnalyticsData = AnalyticsData(
    totalClicks: nat,
    uniqueVisitors: nat,
    qrClicks: nat,
    firstClicked: Option<int>,
    lastClicked: Option<int>,
    sourceStats: seq<SourceStat>,
    hourlyStats: seq<Group<int>>,
    dailyStats: seq<DayStat>,
    recentClicks: seq<ClickRow>,
    referrerStats: seq<Group<string>>,
    deviceStats: seq<Group<string>>)

  const RECENT_LIMIT: nat := 50
  const REFERRER_LIMIT: nat := 10
  const HOURLY_WINDOW_DAYS: int := 7
  const DAILY_WINDOW_DAYS: int := 30

  function Source(c: ClickRow): string { c.source }
  function ClickDay(c: ClickRow): int { Day(c.clickedAt) }
  function ClickHour(c: ClickRow): int { Hour(c.clickedAt) }

  function Map<T, U>(s: seq<T>, f: T -> U): (r: seq<U>)
    ensures |r| == |s| && forall i | 0 <= i < |s| :: r[i] == f(s[i])
  {
    seq(|s|, i requires 0 <= i < |s| => f(s[i]))
  }

  /** `DATE(clicked_at) >= DATE('now', '-n days')`. */
  function SinceDay(today: int, n: int): ClickRow -> bool {
    (c: ClickRow) => Day(c.clickedAt) >= today - n
  }

  function OnDay(d: int): ClickRow -> bool {
    (c: ClickRow) => Day(c.clickedAt) == d
  }

  function AtHour(h: int): ClickRow -> bool {
    (c: ClickRow) => Hour(c.clickedAt) == h
  }

  /** A source's row: its clicks and its distinct addresses. */
  function ToStat(cs: seq<ClickRow>, g: Group<string>): SourceStat {
    SourceStat(g.key, g.count, UniqueVisitors(Filter(cs, WithSource(g.key))))
  }

  function StatCount(s: SourceStat): nat { s.count }

  /** The groups' rows, in the groups' order. */
  function SourceStatsOf(cs: seq<ClickRow>, groups: seq<Group<string>>): (r: seq<SourceStat>)
    ensures |r| == |groups| && forall i | 0 <= i < |groups| :: r[i] == ToStat(cs, groups[i])
    ensures SumBy(r, StatCount) == SumBy(groups, GroupCount)
  {
    if groups == [] then [] else [ToStat(cs, groups[0])] + SourceStatsOf(cs, groups[1..])
  }

  /** `GROUP BY source ORDER BY count DESC`, with `COUNT(DISTINCT ip_address)` per source. */
  function SourceStats(cs: seq<ClickRow>): seq<SourceStat> {
    SourceStatsOf(cs, RankedCounts(Map(cs, Source)))
  }

  /** `ORDER BY clicked_at DESC LIMIT 50`. */
  function RecentClicks(cs: seq<ClickRow>): seq<ClickRow> {
    Take(NewestFirst(cs), RECENT_LIMIT)
  }

  function ReferrerOf(c: ClickRow): string { ReferrerBucket(c.referrer) }

  /** `GROUP BY referrer_domain ORDER BY count DESC LIMIT 10`. */
  function ReferrerStats(cs: seq<ClickRow>): seq<Group<string>> {
    Take(RankedCounts(Map(cs, ReferrerOf)), REFERRER_LIMIT)
  }

  function DeviceOf(c: ClickRow): string { DeviceType(c.userAgent) }

  /** `GROUP BY device_type ORDER BY count DESC`. */
  function DeviceStats(cs: seq<ClickRow>): seq<Group<string>> {
    RankedCounts(Map(cs, DeviceOf))
  }

  /** `GROUP BY DATE(clicked_at), hour ORDER BY date, hour` over the last 7 days. */
  function HourlyStats(cs: seq<ClickRow>, today: int): seq<Group<int>> {
    Histogram(Map(Filter(cs, SinceDay(today, HOURLY_WINDOW_DAYS)), ClickHour))
  }

  /** `GROUP BY DATE(clicked_at) ORDER BY date` over the last 30 days. */
  function DailyStats(cs: seq<ClickRow>, today: int): seq<DayStat> {
    var recent := Filter(cs, SinceDay(today, DAILY_WINDOW_DAYS));
    var days := Histogram(Map(recent, ClickDay));
    Map(days, (g: Group<int>) => DayStat(g.key, g.count, UniqueVisitors(Filter(recent, OnDay(g.key)))))
  }

  /** The aggregates of one link's clicks, `today` being `DATE('now')`. */
  function Aggregates(cs: seq<ClickRow>, today: int): AnalyticsData {
    AnalyticsData(
      |cs|,
      UniqueVisitors(cs),
      CountSource(cs, QR_CODE_SOURCE),
      MinClickedAt(cs),
      MaxClickedAt(cs),
      SourceStats(cs),
      HourlyStats(cs, today),
      DailyStats(cs, today),
      RecentClicks(cs),
      ReferrerStats(cs),
      DeviceStats(cs))
  }

  /**
   * `get_analytics_data`: the `id` of the row with that code (active or not) and the
   * aggregates of its clicks. The 404 it raises for an unknown code is caught by its own
   * `except Exception` and re-raised as 500, as is any query error.
   */
  function GetAnalyticsData(db: Db, code: string, today: int, fails: bool): (r: Result<AnalyticsData>)
    ensures r.Fail? ==> r.status == SERVER_ERROR
    ensures r.Fail? <==> fails || !HasCode(db.urls, code)
    ensures r.Ok? ==> r.value == Aggregates(ClicksOf(db.clicks, FindByCode(db.urls, code).value.id), today)
  {
    if fails then Fail(SERVER_ERROR)
    else
      match FindByCode(db.urls, code)
      case None => Fail(SERVER_ERROR)
      case Some(row) => Ok(Aggregates(ClicksOf(db.clicks, row.id), today))
  }

  /**
   * The headline figures: `total_clicks` is the number of clicks, `unique_visitors` the number
   * of distinct non-NULL addresses and `qr_clicks` the number with source 'qr_code', so
   * neither of the last two exceeds the first; first and last click are NULL exactly when there
   * are no clicks.
   */
  lemma HeadlineFacts(cs: seq<ClickRow>, today: int)
    ensures var a := Aggregates(cs, today);
      && a.totalClicks == |cs|
      && a.uniqueVisitors == |IpSet(cs)| <= a.totalClicks
      && a.qrClicks == |Filter(cs, WithSource(QR_CODE_SOURCE))| <= a.totalClicks
      && (a.firstClicked.None? <==> cs == []) && (a.lastClicked.None? <==> cs == [])
      && (cs != [] ==> a.firstClicked.value <= a.lastClicked.value)
  {
    UniqueVisitorsIsDistinctCount(cs);
    UniqueVisitorsAtMostClicks(cs);
    if cs != [] {
      assert cs[0] in cs;
    }
  }

  /** The source statistics add up to `total_clicks` and come in descending count order. */
  lemma SourceStatsOrder(cs: seq<ClickRow>)
    ensures SumBy(SourceStats(cs), StatCount) == |cs|
    ensures forall i, j | 0 <= i < j < |SourceStats(cs)| :: SourceStats(cs)[i].count >= SourceStats(cs)[j].count
  {
    var keys := Map(cs, Source);
    RankedCountsOrder(keys);
    forall i, j | 0 <= i < j < |SourceStats(cs)| ensures SourceStats(cs)[i].count >= SourceStats(cs)[j].count {
      RankedCountsAt(keys, i, j);
    }
  }

  /**
   * Each source's row holds the exact number of clicks with that source, and never more
   * distinct addresses than clicks.
   */
  lemma SourceStatsExact(cs: seq<ClickRow>)
    ensures forall s | s in SourceStats(cs) :: s.count == CountSource(cs, s.source) && s.uniqueCount <= s.count
  {
    var keys := Map(cs, Source);
    var groups := RankedCounts(keys);
    var stats := SourceStats(cs);
    RankedCountsExact(keys);
    forall s | s in stats ensures s.count == CountSource(cs, s.source) && s.uniqueCount <= s.count {
      var i :| 0 <= i < |stats| && stats[i] == s;
      assert groups[i] in groups;
      OccurrencesIsFilter(cs, s.source);
      UniqueVisitorsAtMostClicks(Filter(cs, WithSource(s.source)));
    }
  }

  /** Counting a source's occurrences is counting its rows. */
  lemma OccurrencesIsFilter(cs: seq<ClickRow>, source: string)
    ensures Occurrences(Map(cs, Source), source) == |Filter(cs, WithSource(source))|
  {
    OccurrencesMap(cs, Source, source, WithSource(source));
  }

  /** The number of rows whose key is `k` is the number of rows the matching `WHERE` keeps. */
  lemma {:induction false} OccurrencesMap<T, K>(s: seq<T>, f: T -> K, k: K, p: T -> bool)
    requires forall x :: p(x) <==> f(x) == k
    ensures Occurrences(Map(s, f), k) == |Filter(s, p)|
  {
    if s != [] {
      var last := s[|s| - 1];
      var init := s[..|s| - 1];
      assert s == init + [last];
      assert Map(s, f)[..|s| - 1] == Map(init, f);
      OccurrencesMap(init, f, k, p);
      FilterConcat(init, [last], p);
      assert [last][1..] == [];
    }
  }

  /** The key of a row is among the keys. */
  lemma MapHas<T, K>(s: seq<T>, f: T -> K, x: T)
    requires x in s
    ensures f(x) in Map(s, f)
  {
    var i :| 0 <= i < |s| && s[i] == x;
    assert Map(s, f)[i] == f(x);
  }

  /**
   * `recent_clicks`: the first 50 of the link's clicks in most-recent-first order (all of them
   * when there are no more than 50), so no click left out is newer than one listed.
   */
  lemma RecentClicksFacts(cs: seq<ClickRow>)
    ensures var r := RecentClicks(cs);
      && |r| == (if |cs| <= RECENT_LIMIT then |cs| else RECENT_LIMIT)
      && r == NewestFirst(cs)[..|r|]
      && SortedDesc(r, ClickedAt)
      && (forall c | c in r :: c in cs)
      && (|cs| <= RECENT_LIMIT ==> multiset(r) == multiset(cs))
      && (forall i, k | 0 <= i < |r| <= k < |cs| :: r[i].clickedAt >= NewestFirst(cs)[k].clickedAt)
  {
    var sorted := NewestFirst(cs);
    var r := Take(sorted, RECENT_LIMIT);
    SortDescSorted(cs, ClickedAt);
    forall c | c in r ensures c in cs {
      SortDescSameElements(cs, ClickedAt, c);
    }
    forall i, k | 0 <= i < |r| <= k < |cs| ensures r[i].clickedAt >= sorted[k].clickedAt {
      assert r[i] == sorted[i];
      assert ClickedAt(sorted[i]) >= ClickedAt(sorted[k]);
    }
  }

  /** The position of a key's group among the ranked groups. */
  lemma RankedIndex<K>(keys: seq<K>, k: K) returns (m: nat)
    requires k in keys
    ensures m < |RankedCounts(keys)| && RankedCounts(keys)[m].key == k
    ensures RankedCounts(keys)[m].count == Occurrences(keys, k)
  {
    var ranked := RankedCounts(keys);
    RankedCountsExact(keys);
    var x :| x in ranked && x.key == k;
    m :| 0 <= m < |ranked| && ranked[m] == x;
  }

  /**
   * `referrer_stats`: the first 10 of the buckets in descending count order, each bucket once
   * with the exact number of its clicks (an empty or NULL referrer lands in 'Direct'). A bucket
   * left out has no more clicks than any bucket listed, and when fewer than 10 are listed
   * every bucket is.
   */
  lemma ReferrerStatsFacts(cs: seq<ClickRow>)
    ensures var keys := Map(cs, ReferrerOf); var r := ReferrerStats(cs);
      && |r| == (if |RankedCounts(keys)| <= REFERRER_LIMIT then |RankedCounts(keys)| else REFERRER_LIMIT)
      && r == RankedCounts(keys)[..|r|]
      && (forall i, j | 0 <= i < j < |r| :: r[i].count >= r[j].count && r[i].key != r[j].key)
      && (forall g | g in r :: g.count == Occurrences(keys, g.key) >= 1)
      && (forall c, g | c in cs && g in r && (forall h | h in r :: h.key != ReferrerOf(c)) ::
            Occurrences(keys, ReferrerOf(c)) <= g.count)
      && (|r| < REFERRER_LIMIT ==> forall c | c in cs :: exists g | g in r :: g.key == ReferrerOf(c))
  {
    var keys := Map(cs, ReferrerOf);
    RankedCountsExact(keys);
    RankedCountsDistinct(keys);
    var ranked := RankedCounts(keys);
    var r := Take(ranked, REFERRER_LIMIT);
    assert forall g | g in r :: g in ranked;
    forall i, j | 0 <= i < j < |r| ensures r[i].count >= r[j].count && r[i].key != r[j].key {
      assert r[i] == ranked[i] && r[j] == ranked[j];
      RankedCountsAt(keys, i, j);
    }
    ReferrersLeftOut(cs);
    ReferrersAllListed(cs);
  }

  /** A referrer bucket left out of the first 10 has no more clicks than any bucket listed. */
  lemma ReferrersLeftOut(cs: seq<ClickRow>)
    ensures var keys := Map(cs, ReferrerOf); var r := ReferrerStats(cs);
      forall c, g | c in cs && g in r && (forall h | h in r :: h.key != ReferrerOf(c)) ::
        Occurrences(keys, ReferrerOf(c)) <= g.count
  {
    var keys := Map(cs, ReferrerOf);
    var ranked := RankedCounts(keys);
    var r := Take(ranked, REFERRER_LIMIT);
    forall c, g | c in cs && g in r && (forall h | h in r :: h.key != ReferrerOf(c))
      ensures Occurrences(keys, ReferrerOf(c)) <= g.count
    {
      MapHas(cs, ReferrerOf, c);
      var m := RankedIndex(keys, ReferrerOf(c));
      var i :| 0 <= i < |r| && r[i] == g;
      assert g == ranked[i];
      RankedCountsAt(keys, i, m);
    }
  }

  /** When fewer than 10 referrer buckets are listed, every bucket is. */
  lemma ReferrersAllListed(cs: seq<ClickRow>)
    ensures var r := ReferrerStats(cs);
      |r| < REFERRER_LIMIT ==> forall c | c in cs :: exists g | g in r :: g.key == ReferrerOf(c)
  {
    var keys := Map(cs, ReferrerOf);
    var ranked := RankedCounts(keys);
    var r := Take(ranked, REFERRER_LIMIT);
    if |r| < REFERRER_LIMIT {
      forall c | c in cs ensures exists g | g in r :: g.key == ReferrerOf(c) {
        MapHas(cs, ReferrerOf, c);
        var m := RankedIndex(keys, ReferrerOf(c));
        assert ranked[m] in r;
      }
    }
  }

  /** `device_type = k`. */
  function DeviceIs(k: string): ClickRow -> bool {
    (c: ClickRow) => DeviceOf(c) == k
  }

  /**
   * `device_stats`: each of Mobile, Tablet and Desktop that some click has appears once, with
   * the exact number of clicks of that class, in descending count order; the counts add up
   * to `total_clicks`.
   */
  lemma DeviceStatsFacts(cs: seq<ClickRow>)
    ensures var d := DeviceStats(cs);
      && SumBy(d, GroupCount) == |cs|
      && (forall i, j | 0 <= i < j < |d| :: d[i].count >= d[j].count && d[i].key != d[j].key)
      && (forall g | g in d ::
            && (g.key == MOBILE || g.key == TABLET || g.key == DESKTOP)
            && g.count == |Filter(cs, DeviceIs(g.key))| >= 1)
      && (forall c | c in cs :: exists g | g in d :: g.key == DeviceOf(c))
  {
    var keys := Map(cs, DeviceOf);
    var d := RankedCounts(keys);
    RankedCountsOrder(keys);
    RankedCountsDistinct(keys);
    forall i, j | 0 <= i < j < |d| ensures d[i].count >= d[j].count {
      RankedCountsAt(keys, i, j);
    }
    DeviceRowsExact(cs);
    DeviceRowsComplete(cs);
  }

  /** Each device row is one of the three classes, with the exact number of its clicks. */
  lemma DeviceRowsExact(cs: seq<ClickRow>)
    ensures forall g | g in DeviceStats(cs) ::
      && (g.key == MOBILE || g.key == TABLET || g.key == DESKTOP)
      && g.count == |Filter(cs, DeviceIs(g.key))| >= 1
  {
    forall g | g in DeviceStats(cs)
      ensures && (g.key == MOBILE || g.key == TABLET || g.key == DESKTOP)
              && g.count == |Filter(cs, DeviceIs(g.key))| >= 1
    {
      DeviceRowExact(cs, g);
    }
  }

  lemma DeviceRowExact(cs: seq<ClickRow>, g: Group<string>)
    requires g in DeviceStats(cs)
    ensures g.key == MOBILE || g.key == TABLET || g.key == DESKTOP
    ensures g.count == |Filter(cs, DeviceIs(g.key))| >= 1
  {
    var keys := Map(cs, DeviceOf);
    RankedCountsExact(keys);
    assert g.key in keys && g.count == Occurrences(keys, g.key) >= 1;
    var i :| 0 <= i < |keys| && keys[i] == g.key;
    assert g.key == DeviceType(cs[i].userAgent);
    OccurrencesMap(cs, DeviceOf, g.key, DeviceIs(g.key));
  }

  /** The class of every click has a device row. */
  lemma DeviceRowsComplete(cs: seq<ClickRow>)
    ensures forall c | c in cs :: exists g | g in DeviceStats(cs) :: g.key == DeviceOf(c)
  {
    RankedCountsExact(Map(cs, DeviceOf));
    forall c | c in cs ensures exists g | g in DeviceStats(cs) :: g.key == DeviceOf(c) {
      MapHas(cs, DeviceOf, c);
    }
  }

  /**
   * `daily_stats`: one row per day of the last 30 days on which the link was clicked, in
   * strictly ascending day order, each with that day's exact click count and no more distinct
   * visitors than clicks.
   */
  lemma DailyStatsFacts(cs: seq<ClickRow>, today: int)
    ensures var recent := Filter(cs, SinceDay(today, DAILY_WINDOW_DAYS)); var d := DailyStats(cs, today);
      && (forall i, j | 0 <= i < j < |d| :: d[i].day < d[j].day)
      && (forall s | s in d ::
            && today - DAILY_WINDOW_DAYS <= s.day
            && s.clicks == |Filter(recent, OnDay(s.day))| >= 1
            && s.uniqueVisitors <= s.clicks)
      && (forall c | c in cs && Day(c.clickedAt) >= today - DAILY_WINDOW_DAYS :: exists s | s in d :: s.day == Day(c.clickedAt))
  {
    var recent := Filter(cs, SinceDay(today, DAILY_WINDOW_DAYS));
    var h := Histogram(Map(recent, ClickDay));
    var d := DailyStats(cs, today);
    HistogramAscending(Map(recent, ClickDay));
    forall i, j | 0 <= i < j < |d| ensures d[i].day < d[j].day {
      assert d[i].day == h[i].key && d[j].day == h[j].key;
    }
    DailyRowsExact(cs, today);
    DailyRowsComplete(cs, today);
  }

  /** Each daily row holds its day's exact click count, at least one, and fewer visitors. */
  lemma DailyRowsExact(cs: seq<ClickRow>, today: int)
    ensures var recent := Filter(cs, SinceDay(today, DAILY_WINDOW_DAYS));
      forall s | s in DailyStats(cs, today) ::
        && today - DAILY_WINDOW_DAYS <= s.day
        && s.clicks == |Filter(recent, OnDay(s.day))| >= 1
        && s.uniqueVisitors <= s.clicks
  {
    var recent := Filter(cs, SinceDay(today, DAILY_WINDOW_DAYS));
    var keys := Map(recent, ClickDay);
    var h := Histogram(keys);
    var d := DailyStats(cs, today);
    HistogramExact(keys);
    forall s | s in d
      ensures && today - DAILY_WINDOW_DAYS <= s.day
              && s.clicks == |Filter(recent, OnDay(s.day))| >= 1
              && s.uniqueVisitors <= s.clicks
    {
      var i :| 0 <= i < |d| && d[i] == s;
      assert h[i] in h;
      var k :| 0 <= k < |keys| && keys[k] == h[i].key;
      assert recent[k] in recent;
      OccurrencesMap(recent, ClickDay, s.day, OnDay(s.day));
      UniqueVisitorsAtMostClicks(Filter(recent, OnDay(s.day)));
    }
  }

  /** Every day of the window on which the link was clicked has a row. */
  lemma DailyRowsComplete(cs: seq<ClickRow>, today: int)
    ensures forall c | c in cs && Day(c.clickedAt) >= today - DAILY_WINDOW_DAYS ::
      exists s | s in DailyStats(cs, today) :: s.day == Day(c.clickedAt)
  {
    var recent := Filter(cs, SinceDay(today, DAILY_WINDOW_DAYS));
    var keys := Map(recent, ClickDay);
    var h := Histogram(keys);
    var d := DailyStats(cs, today);
    HistogramExact(keys);
    forall c | c in cs && Day(c.clickedAt) >= today - DAILY_WINDOW_DAYS ensures exists s | s in d :: s.day == Day(c.clickedAt) {
      assert SinceDay(today, DAILY_WINDOW_DAYS)(c);
      MapHas(recent, ClickDay, c);
      var x :| x in h && x.key == ClickDay(c);
      var i :| 0 <= i < |h| && h[i] == x;
      assert d[i] in d;
    }
  }

  /**
   * Hours ascend; every hourly bucket is the hour of a click dated within the last 7 days and
   * holds that hour's exact click count; every such click's hour has a bucket.
   */
  lemma HourlyStatsFacts(cs: seq<ClickRow>, today: int)
    ensures var recent := Filter(cs, SinceDay(today, HOURLY_WINDOW_DAYS)); var h := HourlyStats(cs, today);
      && (forall i, j | 0 <= i < j < |h| :: h[i].key < h[j].key)
      && (forall g | g in h ::
            && (exists c | c in cs :: Day(c.clickedAt) >= today - HOURLY_WINDOW_DAYS && ClickHour(c) == g.key)
            && g.count == |Filter(recent, AtHour(g.key))| >= 1)
      && (forall c | c in cs && Day(c.clickedAt) >= today - HOURLY_WINDOW_DAYS :: exists g | g in h :: g.key == ClickHour(c))
  {
    var recent := Filter(cs, SinceDay(today, HOURLY_WINDOW_DAYS));
    var keys := Map(recent, ClickHour);
    var h := HourlyStats(cs, today);
    HistogramAscending(keys);
    HistogramExact(keys);
    forall g | g in h
      ensures && (exists c | c in cs :: Day(c.clickedAt) >= today - HOURLY_WINDOW_DAYS && ClickHour(c) == g.key)
              && g.count == |Filter(recent, AtHour(g.key))| >= 1
    {
      var k :| 0 <= k < |keys| && keys[k] == g.key;
      assert recent[k] in recent;
      OccurrencesMap(recent, ClickHour, g.key, AtHour(g.key));
    }
    forall c | c in cs && Day(c.clickedAt) >= today - HOURLY_WINDOW_DAYS ensures exists g | g in h :: g.key == ClickHour(c) {
      assert SinceDay(today, HOURLY_WINDOW_DAYS)(c);
      MapHas(recent, ClickHour, c);
    }
  }

  // ---------------------------------------------------------------- endpoints

  /**
   * `analytics_page` and `get_analytics_api`: `get_url_info` (not part of this model; its
   * answer is `urlInfoFound`) decides the 404; after it, the `HTTPException` of
   * `get_analytics_data` passes through unchanged.
   */
  function AnalyticsEndpoint(db: Db, code: string, urlInfoFound: bool, today: int, fails: bool): (r: Result<AnalyticsData>)
    ensures !urlInfoFound ==> r == Fail(NOT_FOUND)
    ensures urlInfoFound ==> r == GetAnalyticsData(db, code, today, fails)
  {
    if !urlInfoFound then Fail(NOT_FOUND) else GetAnalyticsData(db, code, today, fails)
  }

  /**
   * The endpoints that skip `get_url_info` never answer 404: an unknown code gives 500 from
   * the summary and data paths, while the page and API paths give 404 when the lookup misses.
   */
  lemma NotFoundBecomesServerError(db: Db, code: string, today: int, fails: bool)
    requires !HasCode(db.urls, code)
    ensures GetAnalyticsData(db, code, today, fails) == Fail(SERVER_ERROR)
    ensures Summary(db, code, today, fails) == Fail(SERVER_ERROR)
    ensures forall period :: ChartData(db, code, period, today * SECONDS_PER_DAY, fails) == Fail(SERVER_ERROR)
    ensures AnalyticsEndpoint(db, code, false, today, fails) == Fail(NOT_FOUND)
  {
  }

  const TOP_SOURCES: nat := 5

  /** The summary body, without the two rounded percentages. */
  datatype AnalyticsSummary = AnalyticsSummary(
    totalClicks: nat,
    uniqueVisitors: nat,
    qrClicks: nat,
    firstClicked: Option<int>,
    lastClicked: Option<int>,
    topSources: seq<SourceStat>,
    deviceBreakdown: seq<Group<string>>)

  /**
   * `get_analytics_summary`: the headline figures of `get_analytics_data`, its first five
   * source rows and its device rows; any error, the caught 404 included, answers 500.
   */
  function Summary(db: Db, code: string, today: int, fails: bool): (r: Result<AnalyticsSummary>)
    ensures r.Fail? <==> fails || !HasCode(db.urls, code)
    ensures r.Fail? ==> r.status == SERVER_ERROR
    ensures r.Ok? ==> |r.value.topSources| <= TOP_SOURCES
    ensures r.Ok? ==>
      var cs := ClicksOf(db.clicks, FindByCode(db.urls, code).value.id);
      && r.value.totalClicks == |cs|
      && r.value.uniqueVisitors == UniqueVisitors(cs)
      && r.value.qrClicks == CountSource(cs, QR_CODE_SOURCE)
      && r.value.firstClicked == MinClickedAt(cs)
      && r.value.lastClicked == MaxClickedAt(cs)
      && r.value.topSources == Take(SourceStats(cs), TOP_SOURCES)
      && r.value.deviceBreakdown == DeviceStats(cs)
  {
    match GetAnalyticsData(db, code, today, fails)
    case Fail(_) => Fail(SERVER_ERROR)
    case Ok(a) => Ok(AnalyticsSummary(a.totalClicks, a.uniqueVisitors, a.qrClicks, a.firstClicked, a.lastClicked,
                                      Take(a.sourceStats, TOP_SOURCES), a.deviceStats))
  }

  /**
   * The summary's top sources are the five largest: each source once, in descending count
   * order, with its exact number of clicks; a source left out has no more clicks than any
   * listed one, and with five or fewer sources all are listed.
   */
  lemma TopSourcesFacts(cs: seq<ClickRow>)
    ensures var all := SourceStats(cs); var t := Take(all, TOP_SOURCES);
      && |t| == (if |all| <= TOP_SOURCES then |all| else TOP_SOURCES)
      && (forall i, j | 0 <= i < j < |t| :: t[i].count >= t[j].count && t[i].source != t[j].source)
      && (forall s | s in t :: s.count == CountSource(cs, s.source) >= 1 && s.uniqueCount <= s.count)
      && (forall i, k | 0 <= i < |t| <= k < |all| :: t[i].count >= all[k].count)
      && (forall c | c in cs && |all| <= TOP_SOURCES :: exists s | s in t :: s.source == c.source)
  {
    TopSourcesOrder(cs);
    TopSourcesExact(cs);
    TopSourcesAll(cs);
  }

  /** The top sources are in descending count order, each once, and none left out is larger. */
  lemma TopSourcesOrder(cs: seq<ClickRow>)
    ensures var all := SourceStats(cs); var t := Take(all, TOP_SOURCES);
      && (forall i, j | 0 <= i < j < |t| :: t[i].count >= t[j].count && t[i].source != t[j].source)
      && (forall i, k | 0 <= i < |t| <= k < |all| :: t[i].count >= all[k].count)
  {
    var keys := Map(cs, Source);
    var groups := RankedCounts(keys);
    var all := SourceStats(cs);
    var t := Take(all, TOP_SOURCES);
    SourceStatsOrder(cs);
    RankedCountsDistinct(keys);
    forall i, j | 0 <= i < j < |t| ensures t[i].count >= t[j].count && t[i].source != t[j].source {
      assert t[i] == all[i] && t[j] == all[j];
      assert all[i].source == groups[i].key && all[j].source == groups[j].key;
    }
    forall i, k | 0 <= i < |t| <= k < |all| ensures t[i].count >= all[k].count {
      assert t[i] == all[i];
    }
  }

  /** Each top source carries its exact number of clicks, at least one. */
  lemma TopSourcesExact(cs: seq<ClickRow>)
    ensures forall s | s in Take(SourceStats(cs), TOP_SOURCES) ::
      s.count == CountSource(cs, s.source) >= 1 && s.uniqueCount <= s.count
  {
    var keys := Map(cs, Source);
    var groups := RankedCounts(keys);
    var all := SourceStats(cs);
    var t := Take(all, TOP_SOURCES);
    SourceStatsExact(cs);
    RankedCountsExact(keys);
    forall s | s in t ensures s.count == CountSource(cs, s.source) >= 1 && s.uniqueCount <= s.count {
      var i :| 0 <= i < |t| && t[i] == s;
      assert s == all[i] && all[i] in all;
      assert groups[i] in groups;
    }
  }

  /** With five sources or fewer, every click's source is listed. */
  lemma TopSourcesAll(cs: seq<ClickRow>)
    ensures |SourceStats(cs)| <= TOP_SOURCES ==>
      forall c | c in cs :: exists s | s in Take(SourceStats(cs), TOP_SOURCES) :: s.source == c.source
  {
    var keys := Map(cs, Source);
    var all := SourceStats(cs);
    var t := Take(all, TOP_SOURCES);
    if |all| <= TOP_SOURCES {
      forall c | c in cs ensures exists s | s in t :: s.source == c.source {
        MapHas(cs, Source, c);
        var m := RankedIndex(keys, c.source);
        assert t[m] == all[m];
      }
    }
  }

  // ---------------------------------------------------------------- get_chart_data

  const PERIOD_24H: string := "24h"
  const PERIOD_30D: string := "30d"

  /** The series a `period` selects: hourly over 24 hours, or daily over 30 or 7 days. */
  datatype Series = Hourly | Daily(days: int)

  function SeriesOf(period: string): (s: Series)
    ensures period == PERIOD_24H ==> s == Hourly
    ensures period == PERIOD_30D ==> s == Daily(DAILY_WINDOW_DAYS)
    ensures period != PERIOD_24H && period != PERIOD_30D ==> s == Daily(HOURLY_WINDOW_DAYS)
  {
    if period == PERIOD_24H then Hourly
    else if period == PERIOD_30D then Daily(DAILY_WINDOW_DAYS)
    else Daily(HOURLY_WINDOW_DAYS)
  }

  /**
   * `clicked_at >= datetime('now', '-24 hours')`, a comparison of texts. `clicked_at` is
   * written by `isoformat()`, with a 'T' between date and time, and `datetime()` answers with a
   * space there; 'T' sorts after ' ', so a click on the cutoff's date passes whatever its
   * time. The test is therefore on the dates alone.
   */
  function SinceTime(t: int): ClickRow -> bool {
    (c: ClickRow) => Day(c.clickedAt) >= Day(t)
  }

  /** The buckets of one series: hour or day numbers in ascending order, with their counts. */
  function Buckets(cs: seq<ClickRow>, series: Series, now: int): seq<Group<int>> {
    match series
    case Hourly => Histogram(Map(Filter(cs, SinceTime(now - 24 * SECONDS_PER_HOUR)), ClickHour))
    case Daily(n) => Histogram(Map(Filter(cs, SinceDay(Day(now), n)), ClickDay))
  }

  datatype Chart = Chart(period: string, data: seq<Group<int>>)

  /**
   * `get_chart_data`: every failure, including the 404 for an unknown code (active or not),
   * is caught and answered with 500.
   */
  function ChartData(db: Db, code: string, period: string, now: int, fails: bool): (r: Result<Chart>)
    ensures r.Fail? <==> fails || !HasCode(db.urls, code)
    ensures r.Fail? ==> r.status == SERVER_ERROR
    ensures r.Ok? ==> r.value.period == period
    ensures r.Ok? ==> r.value.data == Buckets(ClicksOf(db.clicks, FindByCode(db.urls, code).value.id), SeriesOf(period), now)
  {
    if fails then Fail(SERVER_ERROR)
    else
      match FindByCode(db.urls, code)
      case None => Fail(SERVER_ERROR)
      case Some(row) => Ok(Chart(period, Buckets(ClicksOf(db.clicks, row.id), SeriesOf(period), now)))
  }

  /**
   * The chart's buckets are in ascending order and add up to the number of the link's clicks
   * inside the window the period selects.
   */
  lemma ChartFacts(cs: seq<ClickRow>, period: string, now: int)
    ensures var b := Buckets(cs, SeriesOf(period), now);
      && (forall i, j | 0 <= i < j < |b| :: b[i].key <= b[j].key)
      && SumBy(b, GroupCount) == match SeriesOf(period)
           case Hourly => |Filter(cs, SinceTime(now - 24 * SECONDS_PER_HOUR))|
           case Daily(n) => |Filter(cs, SinceDay(Day(now), n))|
  {
    match SeriesOf(period)
    case Hourly => HistogramFacts(Map(Filter(cs, SinceTime(now - 24 * SECONDS_PER_HOUR)), ClickHour));
    case Daily(n) => HistogramFacts(Map(Filter(cs, SinceDay(Day(now), n)), ClickDay));
  }

  /**
   * The "24h" chart reaches back to the start of the cutoff's day: at noon, a click 35 hours
   * old is still counted.
   */
  lemma DayOldClickInHourlyChart(c: ClickRow)
    requires c.clickedAt == 9 * SECONDS_PER_DAY + SECONDS_PER_HOUR
    ensures Buckets([c], SeriesOf(PERIOD_24H), 10 * SECONDS_PER_DAY + 12 * SECONDS_PER_HOUR)
      == [Group(Hour(c.clickedAt), 1)]
  {
    var now := 10 * SECONDS_PER_DAY + 12 * SECONDS_PER_HOUR;
    assert Day(c.clickedAt) == 9 == Day(now - 24 * SECONDS_PER_HOUR);
    assert Filter([c], SinceTime(now - 24 * SECONDS_PER_HOUR)) == [c];
    assert Map([c], ClickHour) == [Hour(c.clickedAt)];
    HistogramOne(Hour(c.clickedAt));
  }

  /** A single row makes a single bucket. */
  lemma HistogramOne(k: int)
    ensures Histogram([k]) == [Group(k, 1)]
  {
    assert [k][..0] == [];
    assert GroupCounts([k]) == [Group(k, 1)];
  }
}
