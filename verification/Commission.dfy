/** The monthly commission from daily sums plus today's rows (backend/app/services/staff_commission.py). */
module Commission {
  import opened Aggregation
  import opened DailyTable
  import opened Maps
  import opened Rollup
  import opened Wrappers

  // ---- regrouping ----

  /** Entries and rows of a range of days whose key satisfies a condition. */
  function StatsWhere(first: int, last: int, p: Key -> bool): StatRow -> bool {
    (t: StatRow) => first <= t.day <= last && p(t.key)
  }

  function RowsWhere(first: int, last: int, p: Key -> bool): Log -> bool {
    r => first <= DayOf(r) <= last && p(KeyOf(r))
  }

  function DayProfit(rows: seq<Log>, day: int, p: Key -> bool): int {
    Sum(rows, RowsWhere(day, day, p), Profit())
  }

  /** What each day earned, added up; the rows may be others from day to day. */
  function RangeProfit(rowsOf: int -> seq<Log>, first: int, last: int, p: Key -> bool): int
    decreases last - first
  {
    if last < first then 0 else RangeProfit(rowsOf, first, last - 1, p) + DayProfit(rowsOf(last), last, p)
  }

  function Now(rows: seq<Log>): int -> seq<Log> {
    d => rows
  }

  function Recorded(snapshot: Snapshot): int -> seq<Log> {
    d => if d in snapshot then snapshot[d] else []
  }

  function Slots(table: seq<StatRow>): set<Slot> {
    set i | 0 <= i < |table| :: SlotOf(table[i])
  }

  function RowsIn(slots: set<Slot>, where: Log -> bool): Log -> bool {
    r => where(r) && SlotOfRow(r) in slots
  }

  lemma SlotsNext(table: seq<StatRow>)
    requires table != [] && OneEntryEach(table)
    ensures var front, t := table[..|table| - 1], table[|table| - 1];
            Slots(table) == Slots(front) + {SlotOf(t)} && SlotOf(t) !in Slots(front)
  {
    var front := table[..|table| - 1];
    assert forall i :: 0 <= i < |front| ==> table[i] == front[i];
    assert SlotOf(table[|table| - 1]) in Slots(table);
    assert forall i :: 0 <= i < |front| ==> SlotOf(front[i]) in Slots(front) && SlotOf(table[i]) in Slots(table);
  }

  lemma EntryProfit(t: StatRow, rows: seq<Log>)
    requires EntryTrue(t, rows)
    ensures t.revenue - t.cost == Sum(rows, InSlot(SlotOf(t)), Profit())
  {
    SumMinus(rows, InSlot(SlotOf(t)), Revenue(), Cost(), Profit());
  }

  /** Summing a day's entries of any condition on keys is summing the rows they were built from. */
  lemma {:induction false} Regroup(table: seq<StatRow>, rows: seq<Log>, day: int, p: Key -> bool)
    requires OneEntryEach(table) && forall t :: t in table && t.day == day ==> EntryTrue(t, rows)
    ensures Sum(table, StatsWhere(day, day, p), StatProfit())
            == Sum(rows, RowsIn(Slots(table), RowsWhere(day, day, p)), Profit())
  {
    if table == [] {
      SumNone(rows, RowsIn(Slots(table), RowsWhere(day, day, p)), Profit());
    } else {
      var front, t := table[..|table| - 1], table[|table| - 1];
      assert t in table && OneEntryEach(front);
      Regroup(front, rows, day, p);
      SlotsNext(table);
      RegroupOne(rows, Slots(front), SlotOf(t), day, p);
      if t.day == day {
        EntryProfit(t, rows);
      }
    }
  }

  lemma RegroupOne(rows: seq<Log>, slots: set<Slot>, slot: Slot, day: int, p: Key -> bool)
    requires slot !in slots
    ensures var where := RowsWhere(day, day, p);
            Sum(rows, RowsIn(slots + {slot}, where), Profit())
            == Sum(rows, RowsIn(slots, where), Profit())
               + if slot.0 == day && p(slot.1) then Sum(rows, InSlot(slot), Profit()) else 0
  {
    var where := RowsWhere(day, day, p);
    var before, after := RowsIn(slots, where), RowsIn(slots + {slot}, where);
    if slot.0 == day && p(slot.1) {
      forall r
        ensures (before(r) ==> !InSlot(slot)(r)) && (after(r) <==> before(r) || InSlot(slot)(r))
      {
        assert SlotOfRow(r) == (DayOf(r), KeyOf(r));
      }
      SumEither(rows, before, InSlot(slot), after, Profit());
    } else {
      forall r
        ensures before(r) == after(r)
      {
        assert SlotOfRow(r) == (DayOf(r), KeyOf(r));
      }
      SumSame(rows, before, after, Profit());
    }
  }

  /** A true day gives, for any condition on account, channel and status, the profit of its rows. */
  lemma DayIsRows(table: seq<StatRow>, rows: seq<Log>, day: int, p: Key -> bool)
    requires OneEntryEach(table) && DayTrue(table, rows, day)
    ensures Sum(table, StatsWhere(day, day, p), StatProfit()) == DayProfit(rows, day, p)
  {
    Regroup(table, rows, day, p);
    forall i | 0 <= i < |rows|
      ensures RowsIn(Slots(table), RowsWhere(day, day, p))(rows[i]) == RowsWhere(day, day, p)(rows[i])
    {
      if DayOf(rows[i]) == day {
        var t :| t in table && SlotOf(t) == SlotOfRow(rows[i]);
        assert SlotOf(t) in Slots(table);
      }
    }
    SumSameOn(rows, RowsIn(Slots(table), RowsWhere(day, day, p)), RowsWhere(day, day, p), Profit());
  }

  lemma StatsOneMore(table: seq<StatRow>, first: int, last: int, p: Key -> bool)
    requires first <= last
    ensures Sum(table, StatsWhere(first, last, p), StatProfit())
            == Sum(table, StatsWhere(first, last - 1, p), StatProfit())
               + Sum(table, StatsWhere(last, last, p), StatProfit())
  {
    SumEither(table, StatsWhere(first, last - 1, p), StatsWhere(last, last, p), StatsWhere(first, last, p), StatProfit());
  }

  lemma RowsOneMore(rows: seq<Log>, first: int, last: int, p: Key -> bool)
    requires first <= last
    ensures Sum(rows, RowsWhere(first, last, p), Profit())
            == Sum(rows, RowsWhere(first, last - 1, p), Profit()) + DayProfit(rows, last, p)
  {
    SumEither(rows, RowsWhere(first, last - 1, p), RowsWhere(last, last, p), RowsWhere(first, last, p), Profit());
  }

  /** Daily sums of a range give the profit of the rows each day was built from. */
  lemma {:induction false} TableIsRows(table: seq<StatRow>, snapshot: Snapshot, first: int, last: int, p: Key -> bool)
    requires StatsTrue(table, snapshot, first, last)
    ensures Sum(table, StatsWhere(first, last, p), StatProfit()) == RangeProfit(Recorded(snapshot), first, last, p)
    decreases last - first
  {
    if last < first {
      SumNone(table, StatsWhere(first, last, p), StatProfit());
    } else {
      TableIsRows(table, snapshot, first, last - 1, p);
      StatsOneMore(table, first, last, p);
      DayIsRows(table, snapshot[last], last, p);
    }
  }

  lemma {:induction false} RowsByDay(rows: seq<Log>, first: int, last: int, p: Key -> bool)
    ensures Sum(rows, RowsWhere(first, last, p), Profit()) == RangeProfit(Now(rows), first, last, p)
    decreases last - first
  {
    if last < first {
      SumNone(rows, RowsWhere(first, last, p), Profit());
    } else {
      RowsByDay(rows, first, last - 1, p);
      RowsOneMore(rows, first, last, p);
    }
  }

  // ---- the month ----

  function Since(start: int, p: Key -> bool): Log -> bool {
    (r: Log) => r.time >= start && p(KeyOf(r))
  }

  function Live(rows: seq<Log>, start: int, p: Key -> bool): int {
    Sum(rows, Since(start, p), Profit())
  }

  /** The month from the daily table up to yesterday and the live rows from today on. */
  function Commission(table: seq<StatRow>, rows: seq<Log>, firstDay: int, today: int, p: Key -> bool): int {
    Sum(table, StatsWhere(firstDay, today - 1, p), StatProfit()) + Live(rows, today * DAY, p)
  }

  lemma DayStart(time: int, day: int)
    ensures time / DAY >= day <==> time >= day * DAY
  {
  }

  lemma LiveSplit(rows: seq<Log>, firstDay: int, today: int, p: Key -> bool)
    requires firstDay <= today
    ensures Live(rows, firstDay * DAY, p) == RangeProfit(Now(rows), firstDay, today - 1, p) + Live(rows, today * DAY, p)
  {
    var days, rest, all := RowsWhere(firstDay, today - 1, p), Since(today * DAY, p), Since(firstDay * DAY, p);
    forall r
      ensures (days(r) ==> !rest(r)) && (all(r) <==> days(r) || rest(r))
    {
      DayStart(r.time, firstDay);
      DayStart(r.time, today);
      assert days(r) == (firstDay <= DayOf(r) <= today - 1 && p(KeyOf(r)));
      assert rest(r) == (r.time >= today * DAY && p(KeyOf(r)));
      assert all(r) == (r.time >= firstDay * DAY && p(KeyOf(r)));
    }
    SumEither(rows, days, rest, all, Profit());
    RowsByDay(rows, firstDay, today - 1, p);
  }

  /** The rolled-up month is the live month exactly when the days before today earned when last refreshed what they
      earn now. */
  lemma CommissionIff(table: seq<StatRow>, snapshot: Snapshot, rows: seq<Log>, firstDay: int, today: int, p: Key -> bool)
    requires firstDay <= today && StatsTrue(table, snapshot, firstDay, today - 1)
    ensures Commission(table, rows, firstDay, today, p) == Live(rows, firstDay * DAY, p)
            <==> RangeProfit(Recorded(snapshot), firstDay, today - 1, p) == RangeProfit(Now(rows), firstDay, today - 1, p)
  {
    TableIsRows(table, snapshot, firstDay, today - 1, p);
    LiveSplit(rows, firstDay, today, p);
  }

  // ---- when the two agree ----

  /** The rows of one day. */
  function DayRows(rows: seq<Log>, day: int): seq<Log> {
    if rows == [] then []
    else
      var r := rows[|rows| - 1];
      DayRows(rows[..|rows| - 1], day) + if DayOf(r) == day then [r] else []
  }

  lemma {:induction false} DayProfitOfRows(rows: seq<Log>, day: int, p: Key -> bool)
    ensures Sum(DayRows(rows, day), RowsWhere(day, day, p), Profit()) == DayProfit(rows, day, p)
  {
    if rows != [] {
      var front, r := rows[..|rows| - 1], rows[|rows| - 1];
      DayProfitOfRows(front, day, p);
      var before := DayRows(front, day);
      if DayOf(r) == day {
        assert DayRows(rows, day) == before + [r] && (before + [r])[..|before|] == before;
      } else {
        assert DayRows(rows, day) == before;
      }
    }
  }

  /** No row of a recorded day has changed since. */
  ghost predicate Unchanged(snapshot: Snapshot, rows: seq<Log>, first: int, last: int) {
    forall d :: first <= d <= last && d in snapshot ==> multiset(DayRows(snapshot[d], d)) == multiset(DayRows(rows, d))
  }

  lemma {:induction false} UnchangedProfit(snapshot: Snapshot, rows: seq<Log>, first: int, last: int, p: Key -> bool)
    requires Unchanged(snapshot, rows, first, last) && forall d :: first <= d <= last ==> d in snapshot
    ensures RangeProfit(Recorded(snapshot), first, last, p) == RangeProfit(Now(rows), first, last, p)
    decreases last - first
  {
    if first <= last {
      UnchangedProfit(snapshot, rows, first, last - 1, p);
      var before := snapshot[last];
      SumPermuted(DayRows(before, last), DayRows(rows, last), RowsWhere(last, last, p), Profit());
      DayProfitOfRows(before, last, p);
      DayProfitOfRows(rows, last, p);
    }
  }

  function Just(k: Key): Key -> bool {
    x => x == k
  }

  function AmongKeys(keys: seq<Key>, p: Key -> bool): Key -> bool {
    k => p(k) && k in keys
  }

  lemma {:induction false} RangeSame(rowsOf: int -> seq<Log>, first: int, last: int, p: Key -> bool, q: Key -> bool)
    requires forall k :: p(k) == q(k)
    ensures RangeProfit(rowsOf, first, last, p) == RangeProfit(rowsOf, first, last, q)
    decreases last - first
  {
    if first <= last {
      RangeSame(rowsOf, first, last - 1, p, q);
      forall r
        ensures RowsWhere(last, last, p)(r) == RowsWhere(last, last, q)(r)
      {
        assert p(KeyOf(r)) == q(KeyOf(r));
      }
      SumSame(rowsOf(last), RowsWhere(last, last, p), RowsWhere(last, last, q), Profit());
    }
  }

  lemma {:induction false} RangeEither(rowsOf: int -> seq<Log>, first: int, last: int, p: Key -> bool, q: Key -> bool,
                                       either: Key -> bool)
    requires Either(p, q, either)
    ensures RangeProfit(rowsOf, first, last, either)
            == RangeProfit(rowsOf, first, last, p) + RangeProfit(rowsOf, first, last, q)
    decreases last - first
  {
    if first <= last {
      RangeEither(rowsOf, first, last - 1, p, q, either);
      forall r
        ensures var a, b, c := RowsWhere(last, last, p), RowsWhere(last, last, q), RowsWhere(last, last, either);
                (a(r) ==> !b(r)) && (c(r) <==> a(r) || b(r))
      {
        assert (p(KeyOf(r)) ==> !q(KeyOf(r))) && (either(KeyOf(r)) <==> p(KeyOf(r)) || q(KeyOf(r)));
      }
      SumEither(rowsOf(last), RowsWhere(last, last, p), RowsWhere(last, last, q), RowsWhere(last, last, either), Profit());
    }
  }

  /** The keys of all rows of a range of days. */
  function KeysIn(rowsOf: int -> seq<Log>, first: int, last: int): seq<Key>
    decreases last - first
  {
    if last < first then []
    else KeysIn(rowsOf, first, last - 1) + seq(|rowsOf(last)|, i requires 0 <= i < |rowsOf(last)| => KeyOf(rowsOf(last)[i]))
  }

  lemma {:induction false} KeysSuffice(rowsOf: int -> seq<Log>, first: int, last: int, p: Key -> bool, keys: seq<Key>)
    requires forall k :: k in KeysIn(rowsOf, first, last) ==> k in keys
    ensures RangeProfit(rowsOf, first, last, AmongKeys(keys, p)) == RangeProfit(rowsOf, first, last, p)
    decreases last - first
  {
    if first <= last {
      KeysSuffice(rowsOf, first, last - 1, p, keys);
      var rows, known := rowsOf(last), KeysIn(rowsOf, first, last);
      forall i | 0 <= i < |rows|
        ensures RowsWhere(last, last, AmongKeys(keys, p))(rows[i]) == RowsWhere(last, last, p)(rows[i])
      {
        assert known[|known| - |rows| + i] == KeyOf(rows[i]);
      }
      SumSameOn(rows, RowsWhere(last, last, AmongKeys(keys, p)), RowsWhere(last, last, p), Profit());
    }
  }

  lemma {:induction false} EqualByKeys(a: int -> seq<Log>, b: int -> seq<Log>, first: int, last: int, p: Key -> bool,
                                       keys: seq<Key>)
    requires forall k :: p(k) ==> RangeProfit(a, first, last, Just(k)) == RangeProfit(b, first, last, Just(k))
    ensures RangeProfit(a, first, last, AmongKeys(keys, p)) == RangeProfit(b, first, last, AmongKeys(keys, p))
  {
    var all := AmongKeys(keys, p);
    if keys == [] {
      NoKeys(a, first, last, all);
      NoKeys(b, first, last, all);
    } else {
      var front, k := keys[..|keys| - 1], keys[|keys| - 1];
      EqualByKeys(a, b, first, last, p, front);
      assert keys == front + [k];
      if k in front || !p(k) {
        RangeSame(a, first, last, AmongKeys(front, p), all);
        RangeSame(b, first, last, AmongKeys(front, p), all);
      } else {
        assert Either(AmongKeys(front, p), Just(k), all);
        RangeEither(a, first, last, AmongKeys(front, p), Just(k), all);
        RangeEither(b, first, last, AmongKeys(front, p), Just(k), all);
      }
    }
  }

  lemma {:induction false} NoKeys(rowsOf: int -> seq<Log>, first: int, last: int, p: Key -> bool)
    requires forall k :: !p(k)
    ensures RangeProfit(rowsOf, first, last, p) == 0
    decreases last - first
  {
    if first <= last {
      NoKeys(rowsOf, first, last - 1, p);
      forall i | 0 <= i < |rowsOf(last)|
        ensures !RowsWhere(last, last, p)(rowsOf(last)[i])
      {
        assert !p(KeyOf(rowsOf(last)[i]));
      }
      SumNone(rowsOf(last), RowsWhere(last, last, p), Profit());
    }
  }

  /** Equal on every key of a condition means equal on the condition. */
  lemma EqualOnKeys(a: int -> seq<Log>, b: int -> seq<Log>, first: int, last: int, p: Key -> bool)
    requires forall k :: p(k) ==> RangeProfit(a, first, last, Just(k)) == RangeProfit(b, first, last, Just(k))
    ensures RangeProfit(a, first, last, p) == RangeProfit(b, first, last, p)
  {
    var keys := KeysIn(a, first, last) + KeysIn(b, first, last);
    EqualByKeys(a, b, first, last, p, keys);
    KeysSuffice(a, first, last, p, keys);
    KeysSuffice(b, first, last, p, keys);
  }

  /** Who looks after an account, which channels are real, and the salesperson asked for, if one is. */
  datatype Scope = Scope(salesOf: int -> Option<int>, realChannel: int -> bool, wanted: Option<int>)

  /** Rows that count: delivered, on a real channel, and of the salesperson asked for. */
  function Counts(scope: Scope): Key -> bool {
    (k: Key) =>
      k.delivered && scope.realChannel(k.channel) && (scope.wanted.None? || scope.salesOf(k.account) == scope.wanted)
  }

  /** The rows that count for one salesperson. */
  function Earns(sales: int, scope: Scope): Key -> bool {
    (k: Key) => Counts(scope)(k) && scope.salesOf(k.account) == Some(sales)
  }

  lemma EarnsIs(k: Key, sales: int, scope: Scope)
    ensures Counts(scope)(k)
            <==> k.delivered && scope.realChannel(k.channel)
                 && (scope.wanted.None? || scope.salesOf(k.account) == scope.wanted)
    ensures Earns(sales, scope)(k)
            <==> Counts(scope)(k) && scope.salesOf(k.account) == Some(sales)
  {
  }

  /** The rolled-up month of one salesperson is the live one. */
  predicate Agrees(table: seq<StatRow>, rows: seq<Log>, first: int, today: int, p: Key -> bool) {
    Commission(table, rows, first, today, p) == Live(rows, first * DAY, p)
  }

  /** The month agrees for every salesperson, whoever looks after which account, exactly when each account and
      channel earned with delivered messages over the recorded days what it earns over them now. */
  lemma MonthIff(table: seq<StatRow>, snapshot: Snapshot, rows: seq<Log>, first: int, today: int)
    requires first <= today && StatsTrue(table, snapshot, first, today - 1)
    ensures (forall scope, s :: Agrees(table, rows, first, today, Earns(s, scope)))
            <==> forall k: Key :: k.delivered ==>
                   RangeProfit(Recorded(snapshot), first, today - 1, Just(k))
                   == RangeProfit(Now(rows), first, today - 1, Just(k))
  {
    var past, now, last := Recorded(snapshot), Now(rows), today - 1;
    if forall scope, s :: Agrees(table, rows, first, today, Earns(s, scope)) {
      forall k: Key | k.delivered
        ensures RangeProfit(past, first, last, Just(k)) == RangeProfit(now, first, last, Just(k))
      {
        var p := Earns(1, Only(k));
        assert Agrees(table, rows, first, today, p);
        CommissionIff(table, snapshot, rows, first, today, p);
        OnlyKey(k);
        RangeSame(past, first, last, p, Just(k));
        RangeSame(now, first, last, p, Just(k));
      }
    }
    if forall k: Key :: k.delivered ==> RangeProfit(past, first, last, Just(k)) == RangeProfit(now, first, last, Just(k)) {
      forall scope, s
        ensures Agrees(table, rows, first, today, Earns(s, scope))
      {
        var p := Earns(s, scope);
        forall k: Key | p(k)
          ensures RangeProfit(past, first, last, Just(k)) == RangeProfit(now, first, last, Just(k))
        {
          EarnsIs(k, s, scope);
        }
        EqualOnKeys(past, now, first, last, p);
        CommissionIff(table, snapshot, rows, first, today, p);
      }
    }
  }

  lemma {:induction false} RangeFront(rowsOf: int -> seq<Log>, first: int, last: int, p: Key -> bool)
    requires first <= last
    ensures RangeProfit(rowsOf, first, last, p)
            == DayProfit(rowsOf(first), first, p) + RangeProfit(rowsOf, first + 1, last, p)
    decreases last - first
  {
    if first < last {
      RangeFront(rowsOf, first, last - 1, p);
    }
  }

  lemma {:induction false} RangeEqual(a: int -> seq<Log>, b: int -> seq<Log>, first: int, last: int, p: Key -> bool)
    requires forall d :: first <= d <= last ==> DayProfit(a(d), d, p) == DayProfit(b(d), d, p)
    ensures RangeProfit(a, first, last, p) == RangeProfit(b, first, last, p)
    decreases last - first
  {
    if first <= last {
      RangeEqual(a, b, first, last - 1, p);
    }
  }

  /** No entry of an account and channel is stale: each recorded day earned with delivered messages what it earns now. */
  ghost predicate NoneStale(snapshot: Snapshot, rows: seq<Log>, first: int, last: int) {
    forall d, k: Key :: first <= d <= last && k.delivered ==>
      DayProfit(Recorded(snapshot)(d), d, Just(k)) == DayProfit(rows, d, Just(k))
  }

  /** Whichever day of the range one starts at, the totals of all salespersons agree exactly when no entry is stale. */
  lemma NoneStaleIff(table: seq<StatRow>, snapshot: Snapshot, rows: seq<Log>, first: int, today: int)
    requires first <= today && StatsTrue(table, snapshot, first, today - 1)
    ensures (forall start, scope, s :: first <= start <= today ==>
               Agrees(table, rows, start, today, Earns(s, scope)))
            <==> NoneStale(snapshot, rows, first, today - 1)
  {
    var past, now, last := Recorded(snapshot), Now(rows), today - 1;
    if forall start, scope, s :: first <= start <= today ==>
         Agrees(table, rows, start, today, Earns(s, scope)) {
      forall d, k: Key | first <= d <= last && k.delivered
        ensures DayProfit(past(d), d, Just(k)) == DayProfit(rows, d, Just(k))
      {
        MonthIff(table, snapshot, rows, d, today);
        MonthIff(table, snapshot, rows, d + 1, today);
        RangeFront(past, d, last, Just(k));
        RangeFront(now, d, last, Just(k));
      }
    }
    if NoneStale(snapshot, rows, first, last) {
      forall start, scope, s | first <= start <= today
        ensures Agrees(table, rows, start, today, Earns(s, scope))
      {
        forall k: Key | k.delivered
          ensures RangeProfit(past, start, last, Just(k)) == RangeProfit(now, start, last, Just(k))
        {
          RangeEqual(past, now, start, last, Just(k));
        }
        MonthIff(table, snapshot, rows, start, today);
      }
    }
  }

  function Only(k: Key): Scope {
    Scope((a: int) => if a == k.account then Some(1) else None, (c: int) => c == k.channel, None)
  }

  lemma OnlyKey(k: Key)
    requires k.delivered
    ensures forall x :: Earns(1, Only(k))(x) == Just(k)(x)
  {
  }

  // ---- the map of all salespersons ----

  function At(m: map<int, int>, s: int): int {
    if s in m then m[s] else 0
  }

  function ProfitOf(a: Agg): int {
    a.revenue - a.cost
  }

  function ProfitOfAll(result: seq<(Option<int>, Agg)>, s: int): int {
    if result == [] then 0
    else
      var last := result[|result| - 1];
      ProfitOfAll(result[..|result| - 1], s) + if last.0 == Some(s) then ProfitOf(last.1) else 0
  }

  /** _accumulate: rows without a salesperson are skipped. */
  method Accumulate(dst: map<int, int>, result: seq<(Option<int>, Agg)>) returns (r: map<int, int>)
    ensures forall s :: At(r, s) == At(dst, s) + ProfitOfAll(result, s)
  {
    r := dst;
    for i := 0 to |result|
      invariant forall s :: At(r, s) == At(dst, s) + ProfitOfAll(result[..i], s)
    {
      assert result[..i + 1][..i] == result[..i];
      var (sales, agg) := result[i];
      if sales.Some? {
        r := r[sales.value := At(r, sales.value) + ProfitOf(agg)];
      }
    }
    assert result[..|result|] == result;
  }

  lemma {:induction false} ProfitListed(result: seq<(Option<int>, Agg)>, s: int)
    requires forall i, j :: 0 <= i < j < |result| ==> result[i].0 != result[j].0
    ensures ProfitOfAll(result, s) == ProfitOf(Get(MapOf(result), Some(s)))
  {
    if result != [] {
      var front, last := result[..|result| - 1], result[|result| - 1];
      ProfitListed(front, s);
      MapOfKeys(front);
    }
  }

  /** The rows of a query, accumulated in the order they come. */
  method Add(dst: map<int, int>, query: map<Option<int>, Agg>) returns (r: map<int, int>)
    ensures forall s :: At(r, s) == At(dst, s) + ProfitOf(Get(query, Some(s)))
  {
    var result := Rows(query);
    MapOfLists(result, query);
    r := Accumulate(dst, result);
    forall s
      ensures ProfitOfAll(result, s) == ProfitOf(Get(query, Some(s)))
    {
      ProfitListed(result, s);
    }
  }

  /** A query's group of one salesperson is the profit of the rows that count for them. */
  lemma GroupProfit<R(!new)>(rows: seq<R>, col: R -> Option<int>, where: R -> bool, c: Columns<R>, s: int,
                             earns: R -> bool, profit: R -> int)
    requires Same(Member(col, where, Some(s)), earns)
    requires forall r :: profit(r) == c.revenue(r) - c.cost(r)
    ensures ProfitOf(Get(GroupBy(rows, col, where, c), Some(s))) == Sum(rows, earns, profit)
  {
    GroupByAt(rows, col, where, c, Some(s));
    SumMinus(rows, Member(col, where, Some(s)), c.revenue, c.cost, profit);
    SumSame(rows, Member(col, where, Some(s)), earns, profit);
  }

  /** The query of _live_profit_since: GROUP BY salesperson over the rows that count. */
  function LiveQuery(rows: seq<Log>, start: int, scope: Scope):
    map<Option<int>, Agg>
  {
    GroupBy(rows, SalesOfRow(scope), Since(start, Counts(scope)), LogColumns())
  }

  /** The query of _rollup_profit: the same over the entries of a range of days. */
  function RollupQuery(table: seq<StatRow>, first: int, last: int, scope: Scope): map<Option<int>, Agg>
  {
    GroupBy(table, SalesOfEntry(scope), StatsWhere(first, last, Counts(scope)), StatColumns())
  }

  function SalesOfRow(scope: Scope): Log -> Option<int> {
    (r: Log) => scope.salesOf(r.account)
  }

  function SalesOfEntry(scope: Scope): StatRow -> Option<int> {
    (t: StatRow) => scope.salesOf(t.key.account)
  }

  lemma LiveQueryProfit(rows: seq<Log>, start: int, scope: Scope, s: int)
    ensures ProfitOf(Get(LiveQuery(rows, start, scope), Some(s)))
            == Live(rows, start, Earns(s, scope))
  {
    var counts, earns := Counts(scope), Earns(s, scope);
    forall r
      ensures Member(SalesOfRow(scope), Since(start, counts), Some(s))(r) == Since(start, earns)(r)
    {
      EarnsIs(KeyOf(r), s, scope);
      assert Since(start, counts)(r) == (r.time >= start && counts(KeyOf(r)));
      assert Since(start, earns)(r) == (r.time >= start && earns(KeyOf(r)));
    }
    GroupProfit(rows, SalesOfRow(scope), Since(start, counts), LogColumns(), s, Since(start, earns), Profit());
  }

  lemma RollupQueryProfit(table: seq<StatRow>, first: int, last: int, scope: Scope, s: int)
    ensures ProfitOf(Get(RollupQuery(table, first, last, scope), Some(s)))
            == Sum(table, StatsWhere(first, last, Earns(s, scope)), StatProfit())
  {
    var counts, earns := Counts(scope), Earns(s, scope);
    forall t
      ensures Member(SalesOfEntry(scope), StatsWhere(first, last, counts), Some(s))(t) == StatsWhere(first, last, earns)(t)
    {
      EarnsIs(t.key, s, scope);
      assert StatsWhere(first, last, counts)(t) == (first <= t.day <= last && counts(t.key));
      assert StatsWhere(first, last, earns)(t) == (first <= t.day <= last && earns(t.key));
    }
    GroupProfit(table, SalesOfEntry(scope), StatsWhere(first, last, counts), StatColumns(), s,
                StatsWhere(first, last, earns), StatProfit());
  }

  method AddLive(dst: map<int, int>, rows: seq<Log>, start: int, scope: Scope)
    returns (r: map<int, int>)
    ensures forall s :: At(r, s) == At(dst, s) + Live(rows, start, Earns(s, scope))
  {
    r := Add(dst, LiveQuery(rows, start, scope));
    forall s
      ensures At(r, s) == At(dst, s) + Live(rows, start, Earns(s, scope))
    {
      LiveQueryProfit(rows, start, scope, s);
    }
  }

  method AddRollup(dst: map<int, int>, table: seq<StatRow>, first: int, last: int, scope: Scope)
    returns (r: map<int, int>)
    ensures forall s :: At(r, s) == At(dst, s) + Sum(table, StatsWhere(first, last, Earns(s, scope)), StatProfit())
  {
    r := Add(dst, RollupQuery(table, first, last, scope));
    forall s
      ensures At(r, s) == At(dst, s) + Sum(table, StatsWhere(first, last, Earns(s, scope)), StatProfit())
    {
      RollupQueryProfit(table, first, last, scope, s);
    }
  }

  /** Rows that have not changed since their day was refreshed make the rolled-up month the live one, for any
      condition on account, channel and status. */
  lemma UnchangedAgrees(table: seq<StatRow>, snapshot: Snapshot, rows: seq<Log>, first: int, today: int, p: Key -> bool)
    requires first <= today && StatsTrue(table, snapshot, first, today - 1) && Unchanged(snapshot, rows, first, today - 1)
    ensures Agrees(table, rows, first, today, p)
  {
    UnchangedProfit(snapshot, rows, first, today - 1, p);
    CommissionIff(table, snapshot, rows, first, today, p);
  }

  /** get_monthly_commission_map: with a complete table the daily sums up to yesterday and today's rows, otherwise the
      live month; every salesperson's, or only that of the one wanted. The coverage check reads its own clock. Each
      salesperson gets the live month when no row of a covered day has changed since its refresh. */
  method MonthlyCommission(stats: DailyStats, rows: seq<Log>, firstDay: int, now: int, checkedAt: int,
                           scope: Scope)
    returns (r: map<int, int>)
    requires stats.Valid() && firstDay <= now / DAY
    ensures forall s :: var p := Earns(s, scope);
              At(r, s) == if HasCompleteDailyStats(stats.coverage, firstDay, now / DAY - 1, checkedAt)
                          then Commission(stats.table, rows, firstDay, now / DAY, p)
                          else Live(rows, firstDay * DAY, p)
    ensures Unchanged(stats.snapshot, rows, firstDay, now / DAY - 1) ==>
              forall s :: At(r, s) == Live(rows, firstDay * DAY, Earns(s, scope))
  {
    var today := now / DAY;
    var useRollup := firstDay <= today - 1 && HasCompleteDailyStats(stats.coverage, firstDay, today - 1, checkedAt);
    r := map[];
    if useRollup {
      r := AddRollup(r, stats.table, firstDay, today - 1, scope);
      r := AddLive(r, rows, today * DAY, scope);
      CompleteMeansTrue(stats, firstDay, today - 1, checkedAt);
      if Unchanged(stats.snapshot, rows, firstDay, today - 1) {
        forall s
          ensures At(r, s) == Live(rows, firstDay * DAY, Earns(s, scope))
        {
          UnchangedAgrees(stats.table, stats.snapshot, rows, firstDay, today, Earns(s, scope));
        }
      }
    } else {
      r := AddLive(r, rows, firstDay * DAY, scope);
    }
  }

  /** The coverage check does not see it: a day refreshed before its last rows came in counts as complete, and the
      commission misses them. */
  lemma CoveredButStale()
    ensures var late := Log(DAY / 2, 1, 1, 1, true, 5, 0);
            var p := Earns(1, Only(Key(1, 1, true)));
            && HasCompleteDailyStats(map[0 := 0], 0, 0, DAY)
            && StatsTrue([], map[0 := []], 0, 0)
            && Commission([], [late], 0, 1, p) == 0
            && Live([late], 0, p) == 5
  {
    var late := Log(DAY / 2, 1, 1, 1, true, 5, 0);
    var p := Earns(1, Only(Key(1, 1, true)));
    CountMeansAll(map[0 := 0], 0, 0);
    OnlyKey(KeyOf(late));
    assert [late][..0] == [];
    assert Since(0, p)(late) == (late.time >= 0 && p(KeyOf(late)));
    assert Since(DAY, p)(late) == (late.time >= DAY && p(KeyOf(late)));
    assert Profit()(late) == 5;
    assert DAY / DAY == 1 && DAY / 2 < DAY;
    assert Sum([late], Since(0, p), Profit()) == 5;
    assert Sum([late], Since(DAY, p), Profit()) == 0;
    assert Sum<StatRow>([], StatsWhere(0, 0, p), StatProfit()) == 0;
  }
}
