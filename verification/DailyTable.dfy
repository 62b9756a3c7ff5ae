/** The daily sums of the message rows and the coverage that says which days they are there for
    (backend/app/services/sms_daily_stats.py). */
module DailyTable {
  import opened Aggregation
  import opened Maps
  import opened Rollup

  // ---- coverage ----

  const CURRENT_DAY_MAX_AGE := 1_800_000_000

  /** Days with an entry, and when each was last refreshed. */
  type Coverage = map<int, int>

  function Covered(c: Coverage, first: int, last: int): set<int> {
    set d | d in c && first <= d <= last
  }

  /** has_complete_daily_stats: a count of covered days, and for a range that includes today a freshness test. */
  predicate HasCompleteDailyStats(c: Coverage, first: int, last: int, now: int) {
    && first <= last
    && |Covered(c, first, last)| == last - first + 1
    && (first <= now / DAY <= last ==> now / DAY in c && c[now / DAY] >= now - CURRENT_DAY_MAX_AGE)
  }

  function DaysOf(first: int, last: int): set<int>
    decreases last - first
  {
    if last < first then {} else DaysOf(first, last - 1) + {last}
  }

  lemma {:induction false} DaysFacts(first: int, last: int)
    requires first <= last + 1
    ensures |DaysOf(first, last)| == last - first + 1
    ensures forall d :: d in DaysOf(first, last) <==> first <= d <= last
    decreases last - first
  {
    if first <= last {
      DaysFacts(first, last - 1);
    }
  }

  lemma SameSize(a: set<int>, b: set<int>)
    requires a <= b && |a| == |b|
    ensures a == b
  {
    assert b == a + (b - a) && |b| == |a| + |b - a|;
  }

  /** Counting as many covered days as the range has means that every day is covered. */
  lemma CountMeansAll(c: Coverage, first: int, last: int)
    requires first <= last
    ensures |Covered(c, first, last)| == last - first + 1 <==> forall d :: first <= d <= last ==> d in c
  {
    DaysFacts(first, last);
    var all, some := DaysOf(first, last), Covered(c, first, last);
    assert some <= all;
    if |some| == |all| {
      SameSize(some, all);
      forall d | first <= d <= last
        ensures d in c
      {
        assert d in some;
      }
    }
    if forall d :: first <= d <= last ==> d in c {
      assert some == all;
    }
  }

  // ---- the daily table ----

  /** The message rows as they were when each day was last refreshed. */
  type Snapshot = map<int, seq<Log>>

  datatype Key = Key(account: int, channel: int, delivered: bool)

  function KeyOf(r: Log): Key {
    Key(r.account, r.channel, r.delivered)
  }

  /** A day and the key within it: one entry of the table. */
  type Slot = (int, Key)

  datatype StatRow = StatRow(day: int, key: Key, revenue: int, cost: int)

  function SlotOf(t: StatRow): Slot {
    (t.day, t.key)
  }

  function SlotOfRow(r: Log): Slot {
    (DayOf(r), KeyOf(r))
  }

  function InSlot(slot: Slot): Log -> bool {
    r => SlotOfRow(r) == slot
  }

  function Revenue(): Log -> int {
    (r: Log) => r.revenue
  }

  function Cost(): Log -> int {
    (r: Log) => r.cost
  }

  function Profit(): Log -> int {
    (r: Log) => r.revenue - r.cost
  }

  function StatProfit(): StatRow -> int {
    (t: StatRow) => t.revenue - t.cost
  }

  function LogColumns(): Columns<Log> {
    Aggregation.Columns((r: Log) => 0, Revenue(), Cost())
  }

  function StatColumns(): Columns<StatRow> {
    Aggregation.Columns((t: StatRow) => 0, (t: StatRow) => t.revenue, (t: StatRow) => t.cost)
  }

  predicate OneEntryEach(table: seq<StatRow>) {
    forall i, j :: 0 <= i < j < |table| ==> SlotOf(table[i]) != SlotOf(table[j])
  }

  ghost predicate Stored(table: seq<StatRow>, slot: Slot) {
    exists t :: t in table && SlotOf(t) == slot
  }

  predicate EntryTrue(t: StatRow, rows: seq<Log>) {
    t.revenue == Sum(rows, InSlot(SlotOf(t)), Revenue()) && t.cost == Sum(rows, InSlot(SlotOf(t)), Cost())
  }

  /** The entries of one day are the sums of the rows of that day, and none is missing. */
  ghost predicate DayTrue(table: seq<StatRow>, rows: seq<Log>, day: int) {
    && (forall t :: t in table && t.day == day ==> EntryTrue(t, rows))
    && forall i :: 0 <= i < |rows| && DayOf(rows[i]) == day ==> Stored(table, SlotOfRow(rows[i]))
  }

  /** Over a range of days, each day as its rows were when it was last refreshed. */
  ghost predicate StatsTrue(table: seq<StatRow>, snapshot: Snapshot, first: int, last: int) {
    OneEntryEach(table) && forall d :: first <= d <= last ==> d in snapshot && DayTrue(table, snapshot[d], d)
  }

  lemma DayTrueSame(a: seq<StatRow>, b: seq<StatRow>, rows: seq<Log>, day: int)
    requires DayTrue(a, rows, day) && forall t: StatRow :: t.day == day ==> (t in a <==> t in b)
    ensures DayTrue(b, rows, day)
  {
    forall i | 0 <= i < |rows| && DayOf(rows[i]) == day
      ensures Stored(b, SlotOfRow(rows[i]))
    {
      assert Stored(a, SlotOfRow(rows[i]));
      var t :| t in a && SlotOf(t) == SlotOfRow(rows[i]);
      assert t in b;
    }
  }

  /** The entries a refresh leaves alone. */
  function Outside(table: seq<StatRow>, first: int, last: int): seq<StatRow> {
    if table == [] then []
    else
      var t := table[|table| - 1];
      Outside(table[..|table| - 1], first, last) + if first <= t.day <= last then [] else [t]
  }

  lemma {:induction false} OutsideMembers(table: seq<StatRow>, first: int, last: int)
    ensures forall t :: t in Outside(table, first, last) <==> t in table && !(first <= t.day <= last)
  {
    if table != [] {
      var front, t := table[..|table| - 1], table[|table| - 1];
      OutsideMembers(front, first, last);
      assert table == front + [t];
    }
  }

  lemma {:induction false} OutsideDistinct(table: seq<StatRow>, first: int, last: int)
    requires OneEntryEach(table)
    ensures OneEntryEach(Outside(table, first, last))
  {
    if table != [] {
      var front, t := table[..|table| - 1], table[|table| - 1];
      assert OneEntryEach(front);
      OutsideDistinct(front, first, last);
      OutsideMembers(front, first, last);
      forall x | x in Outside(front, first, last)
        ensures SlotOf(x) != SlotOf(t)
      {
        var j :| 0 <= j < |front| && front[j] == x;
        assert table[j] == x;
      }
    }
  }

  /** The groups of the rebuilding query, and the entries they are inserted as. */
  function DailyGroups(rows: seq<Log>, first: int, last: int): map<Slot, Agg> {
    GroupBy(rows, SlotOfRow, Between(first * DAY, (last + 1) * DAY, (r: Log) => true), LogColumns())
  }

  function Entry(group: (Slot, Agg)): StatRow {
    StatRow(group.0.0, group.0.1, group.1.revenue, group.1.cost)
  }

  function Entries(groups: seq<(Slot, Agg)>): seq<StatRow> {
    seq(|groups|, i requires 0 <= i < |groups| => Entry(groups[i]))
  }

  lemma DayRange(time: int, first: int, last: int)
    ensures first <= time / DAY <= last <==> first * DAY <= time < (last + 1) * DAY
  {
  }

  lemma InRangeOrNot(first: int, last: int, r: Log)
    ensures Between(first * DAY, (last + 1) * DAY, (x: Log) => true)(r) <==> first <= DayOf(r) <= last
  {
    DayRange(r.time, first, last);
  }

  /** Every group of the rebuilding query has the sums of its slot. */
  lemma GroupsTrue(rows: seq<Log>, first: int, last: int, groups: seq<(Slot, Agg)>, i: nat)
    requires Lists(groups, DailyGroups(rows, first, last)) && i < |groups|
    ensures first <= groups[i].0.0 <= last && EntryTrue(Entry(groups[i]), rows)
  {
    var slot, where := groups[i].0, Between(first * DAY, (last + 1) * DAY, (r: Log) => true);
    var k :| 0 <= k < |rows| && where(rows[k]) && SlotOfRow(rows[k]) == slot;
    InRangeOrNot(first, last, rows[k]);
    forall r
      ensures Member(SlotOfRow, where, slot)(r) == InSlot(slot)(r)
    {
      InRangeOrNot(first, last, r);
    }
    SumSame(rows, Member(SlotOfRow, where, slot), InSlot(slot), Revenue());
    SumSame(rows, Member(SlotOfRow, where, slot), InSlot(slot), Cost());
  }

  lemma GroupsComplete(rows: seq<Log>, first: int, last: int, groups: seq<(Slot, Agg)>, k: nat)
    requires Lists(groups, DailyGroups(rows, first, last)) && k < |rows| && first <= DayOf(rows[k]) <= last
    ensures Stored(Entries(groups), SlotOfRow(rows[k]))
  {
    var q, slot := DailyGroups(rows, first, last), SlotOfRow(rows[k]);
    InRangeOrNot(first, last, rows[k]);
    assert slot in q && (slot, q[slot]) in groups;
    var i :| 0 <= i < |groups| && groups[i] == (slot, q[slot]);
    assert Entries(groups)[i] == Entry(groups[i]);
    assert Entries(groups)[i] in Entries(groups) && SlotOf(Entries(groups)[i]) == slot;
  }

  /** The rebuilt entries are true for every day of the range. */
  lemma RebuiltTrue(outside: seq<StatRow>, rows: seq<Log>, first: int, last: int, groups: seq<(Slot, Agg)>, day: int)
    requires Lists(groups, DailyGroups(rows, first, last)) && first <= day <= last
    requires forall t :: t in outside ==> !(first <= t.day <= last)
    ensures DayTrue(outside + Entries(groups), rows, day)
  {
    var table := outside + Entries(groups);
    forall t | t in table && t.day == day
      ensures EntryTrue(t, rows)
    {
      var i :| 0 <= i < |groups| && Entries(groups)[i] == t;
      GroupsTrue(rows, first, last, groups, i);
    }
    forall k | 0 <= k < |rows| && DayOf(rows[k]) == day
      ensures Stored(table, SlotOfRow(rows[k]))
    {
      GroupsComplete(rows, first, last, groups, k);
      var t :| t in Entries(groups) && SlotOf(t) == SlotOfRow(rows[k]);
      assert t in table;
    }
  }

  lemma RebuiltDistinct(outside: seq<StatRow>, rows: seq<Log>, first: int, last: int, groups: seq<(Slot, Agg)>)
    requires Lists(groups, DailyGroups(rows, first, last)) && OneEntryEach(outside)
    requires forall t :: t in outside ==> !(first <= t.day <= last)
    ensures OneEntryEach(outside + Entries(groups))
    ensures forall t :: t in Entries(groups) ==> first <= t.day <= last
  {
    forall i | 0 <= i < |groups|
      ensures first <= Entries(groups)[i].day <= last
    {
      GroupsTrue(rows, first, last, groups, i);
    }
    forall i | 0 <= i < |outside|
      ensures !(first <= outside[i].day <= last)
    {
      assert outside[i] in outside;
    }
  }

  class DailyStats {
    var table: seq<StatRow>
    var coverage: Coverage
    ghost var snapshot: Snapshot

    /** Every covered day is true to its snapshot. */
    ghost predicate Valid()
      reads this
    {
      && OneEntryEach(table)
      && (forall d :: d in coverage <==> d in snapshot)
      && forall d :: d in coverage ==> DayTrue(table, snapshot[d], d)
    }

    constructor ()
      ensures Valid() && table == [] && coverage == map[]
    {
      table, coverage, snapshot := [], map[], map[];
    }

    /** refresh_daily_stats: the days of the range are deleted, rebuilt from the rows by one query, and covered. */
    method Refresh(first: int, last: int, now: int, rows: seq<Log>) returns (inserted: nat)
      requires Valid()
      modifies this
      ensures Valid()
      ensures last < first ==> inserted == 0 && unchanged(this)
      ensures forall d :: d in coverage <==> d in old(coverage) || first <= d <= last
      ensures forall d :: d in coverage ==> coverage[d] == if first <= d <= last then now else old(coverage)[d]
      ensures forall d :: d in snapshot ==> snapshot[d] == if first <= d <= last then rows else old(snapshot)[d]
      ensures forall t: StatRow :: !(first <= t.day <= last) ==> (t in table <==> t in old(table))
    {
      if last < first {
        return 0;
      }
      var groups := Rows(DailyGroups(rows, first, last));
      var kept := Outside(table, first, last);
      OutsideMembers(table, first, last);
      OutsideDistinct(table, first, last);
      RebuiltDistinct(kept, rows, first, last, groups);
      table, inserted := kept + Entries(groups), |groups|;
      Cover(first, last, now, rows);
      forall d | d in coverage
        ensures DayTrue(table, snapshot[d], d)
      {
        if first <= d <= last {
          RebuiltTrue(kept, rows, first, last, groups, d);
        } else {
          DayTrueSame(old(table), table, snapshot[d], d);
        }
      }
    }

    /** One coverage row per day. */
    method Cover(first: int, last: int, now: int, ghost rows: seq<Log>)
      requires first <= last && forall d :: d in coverage <==> d in snapshot
      modifies this`coverage, this`snapshot
      ensures forall d :: d in coverage <==> d in old(coverage) || first <= d <= last
      ensures forall d :: d in coverage <==> d in snapshot
      ensures forall d :: d in coverage ==> coverage[d] == if first <= d <= last then now else old(coverage)[d]
      ensures forall d :: d in snapshot ==> snapshot[d] == if first <= d <= last then rows else old(snapshot)[d]
    {
      var day := first;
      while day <= last
        invariant first <= day <= last + 1
        invariant forall d :: d in coverage <==> d in old(coverage) || first <= d < day
        invariant forall d :: d in coverage <==> d in snapshot
        invariant forall d :: d in coverage ==> coverage[d] == if first <= d < day then now else old(coverage)[d]
        invariant forall d :: d in snapshot ==> snapshot[d] == if first <= d < day then rows else old(snapshot)[d]
      {
        coverage, snapshot := coverage[day := now], snapshot[day := rows];
        day := day + 1;
      }
    }
  }

  /** A complete coverage means that the table is true on every day of the range. */
  lemma CompleteMeansTrue(stats: DailyStats, first: int, last: int, now: int)
    requires stats.Valid() && HasCompleteDailyStats(stats.coverage, first, last, now)
    ensures StatsTrue(stats.table, stats.snapshot, first, last)
  {
    CountMeansAll(stats.coverage, first, last);
  }
}
