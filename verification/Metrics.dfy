/**
 The dashboard metrics of one set of history rows (bot.py, _aggregate_metrics).
 Durations and the transfer rate are exact; the final rounding of two figures is left out.
 */
module Metrics {
  import opened Wrappers
  import opened Percentiles
  import opened Tally
  import PeakConcurrent

  const SECONDS_PER_DAY: int := 86400
  const UNKNOWN: string := "unknown"
  const OUTCOME_KEYS: seq<string> :=
    ["user_requested", "task_completed", "transferred", "timeout", "error", "unknown"]

  /** Missing text fields are "", a duration that is missing or not a number is None. */
  datatype Row = Row(startedAt: Option<int>, endedAt: Option<int>, duration: Option<real>,
                     outcome: string, scenario: string, engine: string, transferRequested: bool)

  datatype Payload = Payload(asOf: int, activeCalls: nat,
                             todayTotal: nat, todayAvg: real, todayP50: real, todayP95: real,
                             outcomes: map<string, nat>, transferRate: real,
                             demos: map<string, nat>, engines: map<string, nat>, peak: nat)

  function UtcMidnight(now: int): int {
    now - now % SECONDS_PER_DAY
  }

  function OrUnknown(s: string): string {
    if s == "" then UNKNOWN else s
  }

  /** The keys under which the rows are counted, by one of their text fields. */
  function Keys(rows: seq<Row>, text: Row -> string): (r: seq<string>)
    ensures |r| == |rows|
  {
    seq(|rows|, i requires 0 <= i < |rows| => OrUnknown(text(rows[i])))
  }

  function Transfers(rows: seq<Row>): (n: nat)
    ensures n <= |rows|
  {
    if rows == [] then 0
    else Transfers(rows[..|rows| - 1]) + (if rows[|rows| - 1].transferRequested then 1 else 0)
  }

  /** The durations of the calls started today. */
  function TodayDurations(rows: seq<Row>, midnight: int): seq<real> {
    if rows == [] then []
    else
      var r := rows[|rows| - 1];
      TodayDurations(rows[..|rows| - 1], midnight)
      + (if PeakConcurrent.Start(CallOf(r)) >= midnight && r.duration.Some? then [r.duration.value] else [])
  }

  function CallOf(r: Row): PeakConcurrent.Row {
    PeakConcurrent.Row(r.startedAt, r.endedAt)
  }

  function Calls(rows: seq<Row>): seq<PeakConcurrent.Row> {
    seq(|rows|, i requires 0 <= i < |rows| => CallOf(rows[i]))
  }

  function Sum(s: seq<real>): real {
    if s == [] then 0.0 else Sum(s[..|s| - 1]) + s[|s| - 1]
  }

  function Value(m: map<string, nat>): string -> int {
    k => if k in m then m[k] else 0
  }

  /** A distribution: counts for the keys it starts with and every key that occurs, adding up
      to the number of rows. */
  ghost predicate Distributes(m: map<string, nat>, init: seq<string>, keys: seq<string>) {
    && (forall k :: k in m <==> k in KeyOrder(init, keys))
    && (forall k | k in m :: m[k] == Tally.Count(keys, k))
    && Total(KeyOrder(init, keys), Value(m)) == |keys|
  }

  // --- what is counted ------------------------------------------------------------------

  /** A row with text s is counted under key k; without text, under "unknown". */
  predicate Named(s: string, k: string) {
    if s == "" then k == "unknown" else s == k
  }

  /** Under every key, the number of rows it names; the keys are those of init and those that occur. */
  ghost predicate Tallies(m: map<string, nat>, init: seq<string>, rows: seq<Row>, text: Row -> string) {
    && (forall k :: k in m <==> k in init || exists i | 0 <= i < |rows| :: Named(text(rows[i]), k))
    && (forall k | k in m :: m[k] == |Places(rows, r => Named(text(r), k))|)
  }

  lemma {:induction false} CountNamed(rows: seq<Row>, text: Row -> string, k: string)
    ensures Tally.Count(Keys(rows, text), k) == |Places(rows, r => Named(text(r), k))|
  {
    if rows != [] {
      var n := |rows| - 1;
      CountNamed(rows[..n], text, k);
      PlacesOfOneMore(rows, r => Named(text(r), k));
      assert Keys(rows, text)[..n] == Keys(rows[..n], text);
    }
  }

  lemma KeysOccur(rows: seq<Row>, text: Row -> string, k: string)
    ensures k in Keys(rows, text) <==> exists i | 0 <= i < |rows| :: Named(text(rows[i]), k)
  {
    var keys := Keys(rows, text);
    if k in keys {
      var i :| 0 <= i < |keys| && keys[i] == k;
      assert Named(text(rows[i]), k);
    }
    forall i | 0 <= i < |rows| && Named(text(rows[i]), k) ensures k in keys { assert keys[i] == k; }
  }

  lemma DistributionTallies(m: map<string, nat>, init: seq<string>, rows: seq<Row>, text: Row -> string)
    requires Distributes(m, init, Keys(rows, text))
    ensures Tallies(m, init, rows, text)
  {
    forall k | k in m ensures m[k] == |Places(rows, r => Named(text(r), k))| { CountNamed(rows, text, k); }
    forall k ensures k in Keys(rows, text) <==> exists i | 0 <= i < |rows| :: Named(text(rows[i]), k) {
      KeysOccur(rows, text, k);
    }
  }

  /** The distribution of one text field accounts for every row. */
  ghost predicate IsDistribution(m: map<string, nat>, init: seq<string>, rows: seq<Row>, text: Row -> string) {
    Distributes(m, init, Keys(rows, text)) && Tallies(m, init, rows, text)
  }

  method Distribution(init: seq<string>, rows: seq<Row>, text: Row -> string) returns (m: map<string, nat>)
    requires NoDuplicates(init)
    ensures IsDistribution(m, init, rows, text)
  {
    var keys := Keys(rows, text);
    m := CountInto(init, keys);
    CountsAddUp(init, keys);
    TotalSame(KeyOrder(init, keys), Value(m), k => Tally.Count(keys, k));
    DistributionTallies(m, init, rows, text);
  }

  lemma {:induction false} TransfersAreCounted(rows: seq<Row>)
    ensures Transfers(rows) == |Places(rows, (r: Row) => r.transferRequested)|
  {
    if rows != [] {
      TransfersAreCounted(rows[..|rows| - 1]);
      PlacesOfOneMore(rows, (r: Row) => r.transferRequested);
    }
  }

  /** The row has a duration and started on the UTC day of now or later; no start counts as 1970. */
  predicate CountsToday(r: Row, now: int) {
    r.duration.Some? && (if r.startedAt.Some? then r.startedAt.value else 0) / 86400 >= now / 86400
  }

  lemma SinceMidnight(t: int, now: int)
    ensures t >= UtcMidnight(now) <==> t / 86400 >= now / 86400
  {
  }

  /** Midnight is the start of the day. */
  lemma MidnightOfTheDay(now: int)
    ensures UtcMidnight(now) % 86400 == 0 && UtcMidnight(now) <= now < UtcMidnight(now) + 86400
  {
  }

  /** Of today's durations each occurs once for every row that counts today and has it. */
  lemma {:induction false} TodayIsCounted(rows: seq<Row>, now: int, x: real)
    ensures var today := TodayDurations(rows, UtcMidnight(now));
            && |today| == |Places(rows, r => CountsToday(r, now))|
            && Percentiles.Count(today, x) == |Places(rows, r => CountsToday(r, now) && r.duration == Some(x))|
  {
    if rows != [] {
      var n := |rows| - 1;
      var before := TodayDurations(rows[..n], UtcMidnight(now));
      TodayIsCounted(rows[..n], now, x);
      PlacesOfOneMore(rows, r => CountsToday(r, now));
      PlacesOfOneMore(rows, r => CountsToday(r, now) && r.duration == Some(x));
      SinceMidnight(PeakConcurrent.Start(CallOf(rows[n])), now);
      if rows[n].duration.Some? {
        assert (before + [rows[n].duration.value])[..|before|] == before;
      }
      assert before + [] == before;
    }
  }

  /** The sum is additive, so the order in which the values are added does not matter. */
  lemma {:induction false} SumAdds(a: seq<real>, b: seq<real>)
    ensures Sum(a + b) == Sum(a) + Sum(b)
    ensures |a| == 1 ==> Sum(a) == a[0]
  {
    if |a| == 1 { assert Sum(a[..0]) == 0.0; }
    if b == [] {
      assert a + b == a;
    } else {
      SumAdds(a, b[..|b| - 1]);
      assert (a + b)[..|a + b| - 1] == a + b[..|b| - 1];
    }
  }

  lemma {:induction false} SumOfInsert(x: real, s: seq<real>)
    requires Ascending(s)
    ensures Sum(Insert(x, s)) == Sum(s) + x
  {
    var r := Insert(x, s);
    if s == [] || s[|s| - 1] <= x {
      assert r[..|s|] == s;
    } else {
      SumOfInsert(x, s[..|s| - 1]);
      assert r[..|s|] == Insert(x, s[..|s| - 1]);
    }
  }

  lemma {:induction false} SumOfSorted(s: seq<real>)
    ensures Sum(Sorted(s)) == Sum(s)
  {
    if s != [] {
      SumOfSorted(s[..|s| - 1]);
      SumOfInsert(s[|s| - 1], Sorted(s[..|s| - 1]));
    }
  }

  /** The average of n values with this sum; 0 of none. */
  function Mean(sum: real, n: nat): real {
    if n == 0 then 0.0 else sum / n as real
  }

  /** The average times the number of values is their sum. */
  lemma MeanTimesCount(sum: real, n: nat)
    ensures n > 0 ==> Mean(sum, n) * n as real == sum
    ensures n == 0 ==> Mean(sum, n) == 0.0
  {
    if n > 0 { Quotient(sum, n as real); }
  }

  lemma Quotient(x: real, d: real)
    requires d != 0.0
    ensures x / d * d == x
  {
  }

  // --- the loops ------------------------------------------------------------------------

  /** The loop over today's calls. */
  method CollectToday(rows: seq<Row>, midnight: int) returns (durations: seq<real>)
    ensures durations == TodayDurations(rows, midnight)
  {
    durations := [];
    for i := 0 to |rows|
      invariant durations == TodayDurations(rows[..i], midnight)
    {
      assert rows[..i + 1][..i] == rows[..i];
      if PeakConcurrent.Start(CallOf(rows[i])) >= midnight {
        if rows[i].duration.None? { continue; }
        durations := durations + [rows[i].duration.value];
      }
    }
    assert rows[..|rows|] == rows;
  }

  method CountTransfers(rows: seq<Row>) returns (n: nat)
    ensures n == Transfers(rows)
  {
    n := 0;
    for i := 0 to |rows|
      invariant n == Transfers(rows[..i])
    {
      assert rows[..i + 1][..i] == rows[..i];
      if rows[i].transferRequested { n := n + 1; }
    }
    assert rows[..|rows|] == rows;
  }

  /** The figures of today's durations. */
  ghost predicate SummarizesToday(total: nat, avg: real, p50: real, p95: real, today: seq<real>) {
    && total == |today|
    && avg == Mean(Sum(today), total)
    && p50 == NearestRank(Sorted(today), 50.0)
    && p95 == NearestRank(Sorted(today), 95.0)
    && p50 <= p95
  }

  /** Today's number of calls, average and percentiles of their durations. */
  method TodayFigures(rows: seq<Row>, midnight: int) returns (total: nat, avg: real, p50: real, p95: real)
    ensures SummarizesToday(total, avg, p50, p95, TodayDurations(rows, midnight))
  {
    var today := CollectToday(rows, midnight);
    var sorted := Sorted(today);
    SumOfSorted(today);
    NearestRankIsMonotone(sorted, 50.0, 95.0);
    total := |sorted|;
    avg := Mean(Sum(sorted), total);
    p50 := NearestRank(sorted, 50.0);
    p95 := NearestRank(sorted, 95.0);
  }

  /** The share a of b, between 0 and 1; 0 of nothing. */
  ghost predicate IsProportion(rate: real, a: nat, b: nat) {
    0.0 <= rate <= 1.0 && rate * b as real == a as real && (b == 0 ==> rate == 0.0)
  }

  method TransferRate(rows: seq<Row>) returns (rate: real)
    ensures IsProportion(rate, |Places(rows, (r: Row) => r.transferRequested)|, |rows|)
  {
    var transferred := CountTransfers(rows);
    TransfersAreCounted(rows);
    Proportion(transferred, |rows|);
    rate := if |rows| == 0 then 0.0 else transferred as real / |rows| as real;
  }

  lemma Proportion(a: nat, b: nat)
    requires a <= b
    ensures IsProportion(if b == 0 then 0.0 else a as real / b as real, a, b)
  {
  }

  lemma OutcomeKeysAreDistinct()
    ensures NoDuplicates(OUTCOME_KEYS)
  {
    assert forall i | 0 <= i < 6 :: |OUTCOME_KEYS[i]| == [14, 14, 11, 7, 5, 7][i];
    assert OUTCOME_KEYS[0][0] == 'u' && OUTCOME_KEYS[1][0] == 't';
    assert OUTCOME_KEYS[3][0] == 't' && OUTCOME_KEYS[5][0] == 'u';
  }

  /** The payload: every distribution accounts for every row, the rate is a proportion, the
      percentiles are in order, and the peak is the true maximum. */
  method Aggregate(now: int, rows: seq<Row>, activeCalls: nat) returns (p: Payload)
    ensures p.asOf == now && p.activeCalls == activeCalls
    ensures IsDistribution(p.outcomes, OUTCOME_KEYS, rows, (r: Row) => r.outcome)
    ensures IsDistribution(p.demos, [], rows, (r: Row) => r.scenario)
    ensures IsDistribution(p.engines, [], rows, (r: Row) => r.engine)
    ensures IsProportion(p.transferRate, |Places(rows, (r: Row) => r.transferRequested)|, |rows|)
    ensures SummarizesToday(p.todayTotal, p.todayAvg, p.todayP50, p.todayP95,
                            TodayDurations(rows, UtcMidnight(now)))
    ensures forall t :: PeakConcurrent.Active(Calls(rows), t) <= p.peak
    ensures p.peak == 0 || exists t :: PeakConcurrent.Active(Calls(rows), t) == p.peak
  {
    var total, avg, p50, p95 := TodayFigures(rows, UtcMidnight(now));
    OutcomeKeysAreDistinct();
    var outcomes := Distribution(OUTCOME_KEYS, rows, (r: Row) => r.outcome);
    var rate := TransferRate(rows);
    var demos := Distribution([], rows, (r: Row) => r.scenario);
    var engines := Distribution([], rows, (r: Row) => r.engine);
    var peak := PeakConcurrent.Peak(Calls(rows));
    p := Payload(now, activeCalls, total, avg, p50, p95, outcomes, rate, demos, engines, peak);
  }
}
