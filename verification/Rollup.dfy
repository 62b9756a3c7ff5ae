/** The per-day cache of the message reports and the query it replaces (backend/app/services/reports_service.py).
    Times are microseconds, money whole units. */
module Rollup {
  import opened Aggregation
  import opened Maps
  import opened Wrappers

  const DAY := 86_400_000_000
  const NOW_TOLERANCE := 120_000_000

  /** A message row; channel 0 stands for none. Selling price and cost are summed gross: no amount given back is
      subtracted, whatever the comments beside the queries say. */
  datatype Log = Log(time: int, account: int, channel: int, country: int, delivered: bool, revenue: int, cost: int)

  function DayOf(r: Log): int {
    r.time / DAY
  }

  function Columns(): Columns<Log> {
    Aggregation.Columns((r: Log) => if r.delivered then 1 else 0, (r: Log) => r.revenue, (r: Log) => r.cost)
  }

  function Grouped(rows: seq<Log>, col: Log -> int, where: Log -> bool): map<int, Agg> {
    GroupBy(rows, col, where, Columns())
  }

  // ---- cutting a range into whole days ----

  /** _rollup_days: the first and last day of a range that may be answered day by day, or None. */
  function RollupDays(start: int, end: int, now: int): Option<(int, int)> {
    if start % DAY != 0 then None
    else if end % DAY == 0 then Some((start / DAY, end / DAY - 1))
    else if end / DAY == now / DAY && -NOW_TOLERANCE <= end - now <= NOW_TOLERANCE then Some((start / DAY, now / DAY))
    else None
  }

  function Between(start: int, end: int, where: Log -> bool): Log -> bool {
    r => where(r) && start <= r.time < end
  }

  function OnDays(first: int, last: int, where: Log -> bool): Log -> bool {
    r => where(r) && first <= DayOf(r) <= last
  }

  lemma DaysSplit(start: int, end: int, now: int, where: Log -> bool)
    requires RollupDays(start, end, now).Some? && start <= end
    ensures var (first, last) := RollupDays(start, end, now).value;
            Either(Between(start, end, where), Between(end, (last + 1) * DAY, where), OnDays(first, last, where))
  {
    var (first, last) := RollupDays(start, end, now).value;
    forall r: Log
      ensures first <= DayOf(r) <= last <==> start <= r.time < (last + 1) * DAY
    {
    }
  }

  /** Answering by days is the original half-open query exactly when no row lies between the upper bound and the
      end of the last day, which only a bound of "now" leaves room for. */
  lemma ByDaysIff(rows: seq<Log>, col: Log -> int, where: Log -> bool, start: int, end: int, now: int)
    requires RollupDays(start, end, now).Some? && start <= end
    ensures var (first, last) := RollupDays(start, end, now).value;
            && (Grouped(rows, col, OnDays(first, last, where)) == Grouped(rows, col, Between(start, end, where))
                <==> forall i :: 0 <= i < |rows| ==> !Between(end, (last + 1) * DAY, where)(rows[i]))
            && (end % DAY == 0 ==> (last + 1) * DAY == end)
  {
    var (first, last) := RollupDays(start, end, now).value;
    DaysSplit(start, end, now, where);
    WiderGroupsIff(rows, col, Between(start, end, where), Between(end, (last + 1) * DAY, where),
                   OnDays(first, last, where), Columns());
  }

  // ---- the two business buckets ----

  datatype Biz = SmsBiz | RcsBiz

  predicate NotVirtual(r: Log, virtualIds: set<int>) {
    r.channel == 0 || r.channel !in virtualIds
  }

  /** The condition of a bucket's query; without RCS channels the SMS bucket takes every row. */
  predicate InBucket(r: Log, biz: Biz, virtualIds: set<int>, rcsIds: set<int>) {
    && NotVirtual(r, virtualIds)
    && match biz
       case RcsBiz => r.channel != 0 && r.channel in rcsIds
       case SmsBiz => rcsIds == {} || r.channel == 0 || r.channel !in rcsIds
  }

  function Bucket(biz: Biz, virtualIds: set<int>, rcsIds: set<int>, where: Log -> bool): Log -> bool {
    r => where(r) && InBucket(r, biz, virtualIds, rcsIds)
  }

  function Original(virtualIds: set<int>, where: Log -> bool): Log -> bool {
    r => where(r) && NotVirtual(r, virtualIds)
  }

  /** The two buckets share no row and, merged, are the report without the split. */
  lemma BucketsPartition(rows: seq<Log>, col: Log -> int, virtualIds: set<int>, rcsIds: set<int>, where: Log -> bool)
    ensures forall r :: !(InBucket(r, SmsBiz, virtualIds, rcsIds) && InBucket(r, RcsBiz, virtualIds, rcsIds))
    ensures Merged(Grouped(rows, col, Bucket(SmsBiz, virtualIds, rcsIds, where)),
                   Grouped(rows, col, Bucket(RcsBiz, virtualIds, rcsIds, where)))
            == Grouped(rows, col, Original(virtualIds, where))
  {
    var all := Original(virtualIds, where);
    var sms, rcs := Bucket(SmsBiz, virtualIds, rcsIds, where), Bucket(RcsBiz, virtualIds, rcsIds, where);
    forall r
      ensures (sms(r) ==> !rcs(r)) && (all(r) <==> sms(r) || rcs(r))
    {
      assert sms(r) == (where(r) && InBucket(r, SmsBiz, virtualIds, rcsIds));
      assert rcs(r) == (where(r) && InBucket(r, RcsBiz, virtualIds, rcsIds));
      assert InBucket(r, RcsBiz, virtualIds, rcsIds) ==> r.channel in rcsIds;
      assert InBucket(r, SmsBiz, virtualIds, rcsIds) ==> !InBucket(r, RcsBiz, virtualIds, rcsIds);
    }
    MergedGroups(rows, col, sms, rcs, all, Columns());
  }

  // ---- the day cache ----

  type DayCache = map<int, map<int, Agg>>

  function Only(day: int, where: Log -> bool): Log -> bool {
    r => where(r) && DayOf(r) == day
  }

  function Among(days: set<int>, where: Log -> bool): Log -> bool {
    r => where(r) && DayOf(r) in days
  }

  function SetOf(days: seq<int>): set<int> {
    set i | 0 <= i < |days| :: days[i]
  }

  function Range(first: int, last: int): seq<int> {
    if first <= last then seq(last - first + 1, i => first + i) else []
  }

  /** Cached past days hold what the rows of those days add up to. */
  ghost predicate CacheTrue(cache: DayCache, today: int, rows: seq<Log>, col: Log -> int, where: Log -> bool) {
    forall d :: d in cache && d < today ==> cache[d] == Grouped(rows, col, Only(d, where))
  }

  function DayAnd(col: Log -> int): Log -> (int, int) {
    r => (DayOf(r), col(r))
  }

  /** The gap query: one GROUP BY day and column over everything from the first missing day to the last. */
  function GapQuery(rows: seq<Log>, col: Log -> int, where: Log -> bool, low: int, high: int): map<(int, int), Agg> {
    GroupBy(rows, DayAnd(col), Between(low * DAY, (high + 1) * DAY, where), Columns())
  }

  /** The part of a query result that belongs to one day. */
  function DayPart(query: map<(int, int), Agg>, day: int): map<int, Agg> {
    map slot | slot in query && slot.0 == day :: slot.1 := query[slot]
  }

  lemma DayBounds(time: int, day: int)
    ensures time / DAY == day <==> day * DAY <= time < (day + 1) * DAY
  {
  }

  lemma OneDayOfSpan(col: Log -> int, where: Log -> bool, low: int, high: int, day: int, f: int)
    requires low <= day <= high
    ensures Same(Member(DayAnd(col), Between(low * DAY, (high + 1) * DAY, where), (day, f)), Member(col, Only(day, where), f))
  {
    var span := Between(low * DAY, (high + 1) * DAY, where);
    forall r
      ensures Member(DayAnd(col), span, (day, f))(r) == Member(col, Only(day, where), f)(r)
    {
      DayBounds(r.time, day);
      assert DayAnd(col)(r) == (DayOf(r), col(r));
      assert span(r) == (where(r) && low * DAY <= r.time < (high + 1) * DAY);
      assert Only(day, where)(r) == (where(r) && DayOf(r) == day);
    }
  }

  /** Each day's part of the one query is that day's own GROUP BY. */
  lemma DayPartIsGrouped(rows: seq<Log>, col: Log -> int, where: Log -> bool, low: int, high: int, day: int)
    requires low <= day <= high
    ensures DayPart(GapQuery(rows, col, where, low, high), day) == Grouped(rows, col, Only(day, where))
  {
    var span, q := Between(low * DAY, (high + 1) * DAY, where), GapQuery(rows, col, where, low, high);
    var part := DayPart(q, day);
    forall f
      ensures Get(part, f) == Total(rows, Member(col, Only(day, where), f), Columns()) && (f in part <==> Get(part, f).count > 0)
    {
      GroupByAt(rows, DayAnd(col), span, Columns(), (day, f));
      OneDayOfSpan(col, where, low, high, day, f);
      TotalSame(rows, Member(DayAnd(col), span, (day, f)), Member(col, Only(day, where), f), Columns());
      PartAt(q, day, f);
    }
    AgreesIff(part, rows, col, Only(day, where), Columns());
  }

  lemma PartAt(query: map<(int, int), Agg>, day: int, f: int)
    ensures Get(DayPart(query, day), f) == Get(query, (day, f))
    ensures f in DayPart(query, day) <==> (day, f) in query
  {
  }

  lemma MergedDay(rows: seq<Log>, col: Log -> int, where: Log -> bool, days: set<int>, d: int)
    requires d !in days
    ensures Merged(Grouped(rows, col, Among(days, where)), Grouped(rows, col, Only(d, where)))
            == Grouped(rows, col, Among(days + {d}, where))
  {
    var before, only, after := Among(days, where), Only(d, where), Among(days + {d}, where);
    forall r
      ensures (before(r) ==> !only(r)) && (after(r) <==> before(r) || only(r))
    {
    }
    MergedGroups(rows, col, before, only, after, Columns());
  }

  lemma NoDays(rows: seq<Log>, col: Log -> int, where: Log -> bool)
    ensures Grouped(rows, col, Among({}, where)) == map[]
  {
  }

  lemma SameDays(rows: seq<Log>, col: Log -> int, where: Log -> bool, first: int, last: int)
    ensures Grouped(rows, col, Among(SetOf(Range(first, last)), where)) == Grouped(rows, col, OnDays(first, last, where))
    ensures forall d :: d in Range(first, last) <==> first <= d <= last
  {
    var days := Range(first, last);
    forall d | first <= d <= last
      ensures d in SetOf(days) && d in days
    {
      assert days[d - first] == d;
    }
    var among, on := Among(SetOf(days), where), OnDays(first, last, where);
    forall r
      ensures among(r) == on(r)
    {
    }
    SameGroups(rows, col, among, on, Columns());
  }

  /** The merging loop over the listed groups of one day. */
  method MergeOne(before: map<int, Agg>, day: map<int, Agg>) returns (merged: map<int, Agg>)
    ensures merged == Merged(before, day)
  {
    var groups := Rows(day);
    merged := before;
    MergedNothing(before);
    for i := 0 to |groups|
      invariant merged == Merged(before, MapOf(groups[..i]))
    {
      var (f, agg) := groups[i];
      assert groups[..i + 1] == groups[..i] + [groups[i]];
      MapOfNext(groups[..i], f, agg);
      NotYetListed(groups, i);
      MergedPut(before, MapOf(groups[..i]), f, agg);
      merged := merged[f := Plus(Get(merged, f), agg)];
    }
    assert groups[..|groups|] == groups;
    MapOfLists(groups, day);
  }

  lemma NotYetListed(groups: seq<(int, Agg)>, i: nat)
    requires i < |groups| && forall a, b :: 0 <= a < b < |groups| ==> groups[a].0 != groups[b].0
    ensures groups[i].0 !in MapOf(groups[..i])
  {
    MapOfKeys(groups[..i]);
  }

  method MergeDays(days: seq<int>, perDay: DayCache, ghost rows: seq<Log>, ghost col: Log -> int, ghost where: Log -> bool)
    returns (merged: map<int, Agg>)
    requires forall i, j :: 0 <= i < j < |days| ==> days[i] != days[j]
    requires forall i :: 0 <= i < |days| ==> days[i] in perDay && perDay[days[i]] == Grouped(rows, col, Only(days[i], where))
    ensures merged == Grouped(rows, col, Among(SetOf(days), where))
  {
    merged := map[];
    NoDays(rows, col, where);
    for i := 0 to |days|
      invariant merged == Grouped(rows, col, Among(SetOf(days[..i]), where))
    {
      NextDay(days, i);
      MergedDay(rows, col, where, SetOf(days[..i]), days[i]);
      merged := MergeOne(merged, perDay[days[i]]);
    }
    assert days[..|days|] == days;
  }

  lemma NextDay(days: seq<int>, i: nat)
    requires i < |days| && forall j :: 0 <= j < i ==> days[j] != days[i]
    ensures SetOf(days[..i + 1]) == SetOf(days[..i]) + {days[i]} && days[i] !in SetOf(days[..i])
  {
    var front, next := days[..i], days[..i + 1];
    assert forall j :: 0 <= j < i ==> next[j] == front[j];
    assert next[i] == days[i];
  }

  /** The cached answers for past days, and the days left over, in order. */
  method ReadCache(days: seq<int>, today: int, cache: DayCache) returns (perDay: DayCache, missing: seq<int>)
    requires forall i, j :: 0 <= i < j < |days| ==> days[i] < days[j]
    ensures forall d :: d in perDay <==> d in days && d < today && d in cache
    ensures forall d :: d in perDay ==> perDay[d] == cache[d]
    ensures forall d :: d in missing <==> d in days && d !in perDay
    ensures forall i, j :: 0 <= i < j < |missing| ==> missing[i] < missing[j]
  {
    perDay, missing := map[], [];
    for i := 0 to |days|
      invariant forall d :: d in perDay <==> d in days[..i] && d < today && d in cache
      invariant forall d :: d in perDay ==> perDay[d] == cache[d]
      invariant forall d :: d in missing <==> d in days[..i] && d !in perDay
      invariant forall j, k :: 0 <= j < k < |missing| ==> missing[j] < missing[k]
    {
      var d := days[i];
      assert forall k :: 0 <= k < |missing| ==> missing[k] in missing && missing[k] < d;
      if d in cache && d < today {
        perDay := perDay[d := cache[d]];
      } else {
        missing := missing + [d];
      }
    }
    assert days[..|days|] == days;
  }

  /** The rows of a query result that fall on a wanted day, filed under it; rows of other days in the span are
      dropped. */
  method Distribute(missing: seq<int>, result: seq<((int, int), Agg)>) returns (acc: DayCache)
    ensures forall d :: d in acc <==> d in missing
    ensures forall d :: d in acc ==> acc[d] == DayPart(MapOf(result), d)
  {
    acc := map d | d in missing :: map[];
    for i := 0 to |result|
      invariant forall d :: d in acc <==> d in missing
      invariant forall d :: d in acc ==> acc[d] == DayPart(MapOf(result[..i]), d)
    {
      var (slot, agg) := result[i];
      assert result[..i + 1] == result[..i] + [result[i]];
      MapOfNext(result[..i], slot, agg);
      forall d
        ensures DayPart(MapOf(result[..i + 1]), d)
                == if d == slot.0 then DayPart(MapOf(result[..i]), d)[slot.1 := agg] else DayPart(MapOf(result[..i]), d)
      {
        DayPartPut(MapOf(result[..i]), slot, agg, d);
      }
      if slot.0 in acc {
        acc := acc[slot.0 := acc[slot.0][slot.1 := agg]];
      }
    }
    assert result[..|result|] == result;
  }

  lemma DayPartPut(m: map<(int, int), Agg>, slot: (int, int), agg: Agg, d: int)
    ensures DayPart(m[slot := agg], d) == if d == slot.0 then DayPart(m, d)[slot.1 := agg] else DayPart(m, d)
  {
  }

  /** The filed days, and their write-back to the cache; today is never written and cached days stay. */
  method FillGaps(missing: seq<int>, acc: DayCache, today: int, cached: DayCache, cache: DayCache)
    returns (perDay: DayCache, newCache: DayCache)
    requires forall i :: 0 <= i < |missing| ==> missing[i] in acc
    ensures forall d :: d in perDay <==> d in cached || d in missing
    ensures forall d :: d in perDay ==> perDay[d] == if d in missing then acc[d] else cached[d]
    ensures forall d :: d in newCache <==> d in cache || (d in missing && d < today)
    ensures forall d :: d in newCache ==> newCache[d] == if d in missing && d < today then acc[d] else cache[d]
  {
    perDay, newCache := cached, cache;
    for i := 0 to |missing|
      invariant forall d :: d in perDay <==> d in cached || d in missing[..i]
      invariant forall d :: d in perDay ==> perDay[d] == if d in missing[..i] then acc[d] else cached[d]
      invariant forall d :: d in newCache <==> d in cache || (d in missing[..i] && d < today)
      invariant forall d :: d in newCache ==> newCache[d] == if d in missing[..i] && d < today then acc[d] else cache[d]
    {
      var d := missing[i];
      perDay := perDay[d := acc[d]];
      if d < today {
        newCache := newCache[d := acc[d]];
      }
    }
    assert missing[..|missing|] == missing;
  }

  /** The missing days answered by one query from the first of them to the last. */
  method QueryMissing(rows: seq<Log>, col: Log -> int, where: Log -> bool, missing: seq<int>) returns (acc: DayCache)
    requires forall i, j :: 0 <= i < j < |missing| ==> missing[i] < missing[j]
    ensures forall d :: d in acc <==> d in missing
    ensures forall d :: d in acc ==> acc[d] == Grouped(rows, col, Only(d, where))
  {
    acc := map[];
    if missing != [] {
      var low, high := missing[0], missing[|missing| - 1];
      var query := GapQuery(rows, col, where, low, high);
      var result := Rows(query);
      acc := Distribute(missing, result);
      MapOfLists(result, query);
      forall d | d in acc
        ensures acc[d] == Grouped(rows, col, Only(d, where))
      {
        var i :| 0 <= i < |missing| && missing[i] == d;
        assert low <= missing[i] <= high;
        DayPartIsGrouped(rows, col, where, low, high, d);
      }
    }
  }

  /** _sms_group_rollup: cached past days, one query from the first missing day to the last, and the merge. The
      cache may hold any of the days. */
  method SmsGroupRollup(rows: seq<Log>, col: Log -> int, where: Log -> bool, first: int, last: int, today: int, cache: DayCache)
    returns (merged: map<int, Agg>, newCache: DayCache)
    requires CacheTrue(cache, today, rows, col, where)
    ensures merged == Grouped(rows, col, OnDays(first, last, where))
    ensures CacheTrue(newCache, today, rows, col, where)
    ensures forall d :: first <= d <= last && d < today ==> d in newCache
    ensures forall d :: d >= today ==> (d in newCache <==> d in cache) && (d in cache ==> newCache[d] == cache[d])
  {
    SameDays(rows, col, where, first, last);
    var days := Range(first, last);
    var cached, missing := ReadCache(days, today, cache);
    var acc := QueryMissing(rows, col, where, missing);
    var perDay;
    assert forall i :: 0 <= i < |missing| ==> missing[i] in missing;
    perDay, newCache := FillGaps(missing, acc, today, cached, cache);
    merged := MergeDays(days, perDay, rows, col, where);
  }
}
