/**
 The peak number of concurrent calls (bot.py, _peak_concurrent): a sweep over start and end
 events, specified as the maximum over all instants of the number of calls in progress.
 */
module PeakConcurrent {
  import opened Wrappers
  import Tally

  /** A history row; a missing timestamp is read as 0. */
  datatype Row = Row(startedAt: Option<int>, endedAt: Option<int>)

  datatype Event = Event(at: int, delta: int)

  function Start(r: Row): int {
    if r.startedAt.Some? then r.startedAt.value else 0
  }

  function End(r: Row): int {
    if r.endedAt.Some? then r.endedAt.value else 0
  }

  predicate Finalized(r: Row) {
    End(r) > 0 && End(r) >= Start(r)
  }

  /** Finalized calls with started_at <= t < ended_at. */
  function Active(rows: seq<Row>, t: int): nat {
    if rows == [] then 0
    else
      var r := rows[|rows| - 1];
      Active(rows[..|rows| - 1], t) + (if Finalized(r) && Start(r) <= t < End(r) then 1 else 0)
  }

  /** The call has ended and t is between its start, 1970 if there is none, and its end. */
  predicate InProgress(r: Row, t: int) {
    && r.endedAt.Some? && r.endedAt.value > 0
    && (if r.startedAt.Some? then r.startedAt.value else 0) <= t < r.endedAt.value
  }

  /** That many rows are calls in progress at t. */
  lemma {:induction false} ActiveAreCounted(rows: seq<Row>, t: int)
    ensures Active(rows, t) == |Tally.Places(rows, r => InProgress(r, t))|
  {
    if rows != [] {
      ActiveAreCounted(rows[..|rows| - 1], t);
      Tally.PlacesOfOneMore(rows, r => InProgress(r, t));
    }
  }

  // --- events --------------------------------------------------------------------------

  function EventsOf(rows: seq<Row>): seq<Event> {
    if rows == [] then []
    else
      var r := rows[|rows| - 1];
      EventsOf(rows[..|rows| - 1]) + (if Finalized(r) then [Event(Start(r), 1), Event(End(r), -1)] else [])
  }

  /** By time and, at one instant, ends before starts. */
  predicate Precedes(a: Event, b: Event) {
    a.at < b.at || (a.at == b.at && a.delta <= b.delta)
  }

  ghost predicate InOrder(es: seq<Event>) {
    forall i, j | 0 <= i < j < |es| :: Precedes(es[i], es[j])
  }

  function Insert(e: Event, es: seq<Event>): (r: seq<Event>)
    requires InOrder(es)
    ensures InOrder(r) && |r| == |es| + 1
    ensures forall x | x in r :: x == e || x in es
  {
    if es == [] then [e]
    else if Precedes(e, es[0]) then [e] + es
    else
      var rest := Insert(e, es[1..]);
      assert forall k | 0 <= k < |rest| :: rest[k] in rest;
      [es[0]] + rest
  }

  /** events.sort(key=(time, delta)). */
  function Sorted(es: seq<Event>): (r: seq<Event>)
    ensures InOrder(r) && |r| == |es|
  {
    if es == [] then [] else Insert(es[|es| - 1], Sorted(es[..|es| - 1]))
  }

  /** The sum of the deltas of the events up to and including time t. */
  function Net(es: seq<Event>, t: int): int {
    if es == [] then 0
    else Net(es[1..], t) + (if es[0].at <= t then es[0].delta else 0)
  }

  function Sum(es: seq<Event>): int {
    if es == [] then 0 else Sum(es[..|es| - 1]) + es[|es| - 1].delta
  }

  lemma {:induction false} NetConcat(a: seq<Event>, b: seq<Event>, t: int)
    ensures Net(a + b, t) == Net(a, t) + Net(b, t)
  {
    if a == [] {
      assert a + b == b;
    } else {
      NetConcat(a[1..], b, t);
      assert (a + b)[1..] == a[1..] + b;
    }
  }

  lemma {:induction false} NetOfInsert(e: Event, es: seq<Event>, t: int)
    requires InOrder(es)
    ensures Net(Insert(e, es), t) == Net(es, t) + (if e.at <= t then e.delta else 0)
  {
    if es != [] && !Precedes(e, es[0]) {
      NetOfInsert(e, es[1..], t);
      assert Insert(e, es)[1..] == Insert(e, es[1..]);
    } else {
      assert Insert(e, es)[1..] == es;
    }
  }

  lemma {:induction false} NetOfSorted(es: seq<Event>, t: int)
    ensures Net(Sorted(es), t) == Net(es, t)
  {
    if es != [] {
      var n := |es| - 1;
      NetOfSorted(es[..n], t);
      NetOfInsert(es[n], Sorted(es[..n]), t);
      NetConcat(es[..n], [es[n]], t);
      assert es == es[..n] + [es[n]];
    }
  }

  /** Up to time t the starts outnumber the ends by the calls in progress at t. */
  lemma {:induction false} NetIsActive(rows: seq<Row>, t: int)
    ensures Net(EventsOf(rows), t) == Active(rows, t)
  {
    if rows != [] {
      var n := |rows| - 1;
      NetIsActive(rows[..n], t);
      var r := rows[n];
      var es := [Event(Start(r), 1), Event(End(r), -1)];
      assert es[1..] == [Event(End(r), -1)] && es[1..][1..] == [];
      if Finalized(r) {
        NetConcat(EventsOf(rows[..n]), es, t);
        assert Net(es[1..], t) == if End(r) <= t then -1 else 0;
        assert EventsOf(rows) == EventsOf(rows[..n]) + es;
      } else {
        assert EventsOf(rows) == EventsOf(rows[..n]);
      }
    }
  }

  // --- running sums of the sweep ---------------------------------------------------------

  ghost predicate Deltas(es: seq<Event>) {
    forall k | 0 <= k < |es| :: es[k].delta == 1 || es[k].delta == -1
  }

  lemma {:induction false} NetNotNegative(es: seq<Event>, t: int)
    requires forall k | 0 <= k < |es| && es[k].at <= t :: es[k].delta == 1
    ensures Net(es, t) >= 0
  {
    if es != [] {
      assert forall k | 0 <= k < |es| - 1 :: es[1..][k] == es[k + 1];
      NetNotNegative(es[1..], t);
    }
  }

  lemma {:induction false} NetOfPast(es: seq<Event>, t: int)
    requires forall k | 0 <= k < |es| :: es[k].at <= t
    ensures Net(es, t) == Sum(es)
  {
    if es != [] {
      var n := |es| - 1;
      NetOfPast(es[..n], t);
      NetConcat(es[..n], [es[n]], t);
      assert es == es[..n] + [es[n]];
      assert [es[n]][1..] == [];
    }
  }

  lemma {:induction false} NetOfFuture(es: seq<Event>, t: int)
    requires forall k | 0 <= k < |es| :: es[k].at > t
    ensures Net(es, t) == 0
  {
    if es != [] { NetOfFuture(es[1..], t); }
  }

  /** Every running sum is at most 0 or at most the number of calls at some instant: at a
      start, whatever else happens at that instant is a start too. */
  lemma {:induction false} RunningSumIsReached(es: seq<Event>, k: nat)
    requires InOrder(es) && Deltas(es) && k <= |es|
    ensures Sum(es[..k]) <= 0 || exists t :: Sum(es[..k]) <= Net(es, t)
  {
    if k > 0 {
      assert es[..k][..k - 1] == es[..k - 1];
      if es[k - 1].delta == -1 {
        RunningSumIsReached(es, k - 1);
      } else {
        var t := es[k - 1].at;
        forall i | 0 <= i < k ensures es[..k][i].at <= t {
          if i < k - 1 { assert Precedes(es[i], es[k - 1]); }
        }
        NetOfPast(es[..k], t);
        forall i | 0 <= i < |es| - k && es[k..][i].at <= t ensures es[k..][i].delta == 1 {
          assert Precedes(es[k - 1], es[k + i]);
        }
        NetNotNegative(es[k..], t);
        NetConcat(es[..k], es[k..], t);
        assert es[..k] + es[k..] == es;
      }
    }
  }

  /** The number of calls at any instant is one of the running sums. */
  lemma {:induction false} InstantIsARunningSum(es: seq<Event>, t: int, k: nat)
    requires InOrder(es) && k <= |es|
    requires forall i | k <= i < |es| :: es[i].at > t
    ensures exists j | 0 <= j <= k :: Sum(es[..j]) == Net(es, t)
  {
    if k == 0 {
      NetOfFuture(es, t);
      assert Sum(es[..0]) == Net(es, t);
    } else if es[k - 1].at > t {
      InstantIsARunningSum(es, t, k - 1);
    } else {
      forall i | 0 <= i < k ensures es[..k][i].at <= t {
        if i < k - 1 { assert Precedes(es[i], es[k - 1]); }
      }
      NetOfPast(es[..k], t);
      NetOfFuture(es[k..], t);
      NetConcat(es[..k], es[k..], t);
      assert es[..k] + es[k..] == es;
    }
  }

  lemma {:induction false} DeltasOfEvents(rows: seq<Row>)
    ensures Deltas(EventsOf(rows))
  {
    if rows != [] { DeltasOfEvents(rows[..|rows| - 1]); }
  }

  lemma {:induction false} DeltasOfSorted(es: seq<Event>)
    requires Deltas(es)
    ensures Deltas(Sorted(es))
  {
    if es != [] {
      var n := |es| - 1;
      DeltasOfSorted(es[..n]);
      var s := Sorted(es[..n]);
      forall k | 0 <= k < |Sorted(es)| ensures Sorted(es)[k].delta == 1 || Sorted(es)[k].delta == -1 {
        assert Sorted(es)[k] in Insert(es[n], s);
        if Sorted(es)[k] in s {
          var m :| 0 <= m < |s| && s[m] == Sorted(es)[k];
        }
      }
    }
  }

  /** The running sums' maximum is the maximum number of calls at one instant. */
  lemma PeakIsTheMaximum(rows: seq<Row>, peak: int)
    requires var es := Sorted(EventsOf(rows));
             && (forall j | 0 <= j <= |es| :: Sum(es[..j]) <= peak)
             && exists j | 0 <= j <= |es| :: Sum(es[..j]) == peak
    ensures forall t :: Active(rows, t) <= peak
    ensures peak == 0 || exists t :: Active(rows, t) == peak
  {
    var es := Sorted(EventsOf(rows));
    DeltasOfEvents(rows);
    DeltasOfSorted(EventsOf(rows));
    forall t ensures Active(rows, t) == Net(es, t) && Active(rows, t) <= peak {
      NetOfSorted(EventsOf(rows), t);
      NetIsActive(rows, t);
      InstantIsARunningSum(es, t, |es|);
    }
    var j :| 0 <= j <= |es| && Sum(es[..j]) == peak;
    RunningSumIsReached(es, j);
    assert Sum(es[..0]) <= peak;
    if peak > 0 {
      var t :| peak <= Net(es, t);
      assert Active(rows, t) == peak;
    }
  }

  /** The events of the finalized rows. */
  method CollectEvents(rows: seq<Row>) returns (events: seq<Event>)
    ensures events == EventsOf(rows)
  {
    events := [];
    for i := 0 to |rows|
      invariant events == EventsOf(rows[..i])
    {
      assert rows[..i + 1][..i] == rows[..i];
      var s, e := Start(rows[i]), End(rows[i]);
      if e <= 0 || e < s { continue; }
      events := events + [Event(s, 1), Event(e, -1)];
    }
    assert rows[..|rows|] == rows;
  }

  /** The maximum of the running sums. */
  method Sweep(events: seq<Event>) returns (peak: nat)
    ensures forall j | 0 <= j <= |events| :: Sum(events[..j]) <= peak
    ensures exists j | 0 <= j <= |events| :: Sum(events[..j]) == peak
  {
    peak := 0;
    var cur := 0;
    ghost var at := 0;
    for i := 0 to |events|
      invariant cur == Sum(events[..i])
      invariant forall j | 0 <= j <= i :: Sum(events[..j]) <= peak
      invariant 0 <= at <= i && Sum(events[..at]) == peak
    {
      assert events[..i + 1][..i] == events[..i];
      cur := cur + events[i].delta;
      if cur > peak {
        peak, at := cur, i + 1;
      }
    }
  }

  /** The peak is the maximum over all instants of the calls in progress, 0 if there are none. */
  method Peak(rows: seq<Row>) returns (peak: nat)
    ensures forall t :: Active(rows, t) <= peak
    ensures peak == 0 || exists t :: Active(rows, t) == peak
  {
    var events := CollectEvents(rows);
    peak := Sweep(Sorted(events));
    PeakIsTheMaximum(rows, peak);
  }

  // --- why ends come first ----------------------------------------------------------------

  /** The other order: at one instant, starts before ends. */
  predicate PrecedesStartsFirst(a: Event, b: Event) {
    a.at < b.at || (a.at == b.at && a.delta >= b.delta)
  }

  function InsertStartsFirst(e: Event, es: seq<Event>): seq<Event> {
    if es == [] then [e]
    else if PrecedesStartsFirst(e, es[0]) then [e] + es
    else [es[0]] + InsertStartsFirst(e, es[1..])
  }

  function SortedStartsFirst(es: seq<Event>): seq<Event> {
    if es == [] then [] else InsertStartsFirst(es[|es| - 1], SortedStartsFirst(es[..|es| - 1]))
  }

  /** Finalized calls with ended_at == t. */
  function EndingAt(rows: seq<Row>, t: int): nat {
    if rows == [] then 0
    else
      var r := rows[|rows| - 1];
      EndingAt(rows[..|rows| - 1], t) + (if Finalized(r) && End(r) == t then 1 else 0)
  }

  /** On a clock twice as fast, with every end one tick late, that order is the code's. */
  function Late(e: Event): Event {
    Event(if e.delta == 1 then 2 * e.at else 2 * e.at + 1, e.delta)
  }

  function AllLate(es: seq<Event>): (r: seq<Event>)
    ensures |r| == |es|
  {
    seq(|es|, i requires 0 <= i < |es| => Late(es[i]))
  }

  function LateRows(rows: seq<Row>): seq<Row> {
    if rows == [] then []
    else
      var r := rows[|rows| - 1];
      LateRows(rows[..|rows| - 1])
      + (if Finalized(r) then [Row(Some(2 * Start(r)), Some(2 * End(r) + 1))] else [])
  }

  lemma {:induction false} LateRowsHaveLateEvents(rows: seq<Row>)
    ensures EventsOf(LateRows(rows)) == AllLate(EventsOf(rows))
  {
    if rows != [] {
      var n := |rows| - 1;
      var before, r := LateRows(rows[..n]), rows[n];
      LateRowsHaveLateEvents(rows[..n]);
      if Finalized(r) {
        assert LateRows(rows)[..|before|] == before;
      } else {
        assert LateRows(rows) == before;
      }
    }
  }

  lemma {:induction false} LateInsert(e: Event, es: seq<Event>)
    requires (e.delta == 1 || e.delta == -1) && Deltas(es) && InOrder(AllLate(es))
    ensures AllLate(InsertStartsFirst(e, es)) == Insert(Late(e), AllLate(es))
  {
    if es != [] {
      assert AllLate(es)[0] == Late(es[0]) && AllLate(es)[1..] == AllLate(es[1..]);
      if !PrecedesStartsFirst(e, es[0]) { LateInsert(e, es[1..]); }
    }
  }

  lemma {:induction false} InsertKeepsDeltas(e: Event, es: seq<Event>)
    requires (e.delta == 1 || e.delta == -1) && Deltas(es)
    ensures Deltas(InsertStartsFirst(e, es))
  {
    if es != [] && !PrecedesStartsFirst(e, es[0]) { InsertKeepsDeltas(e, es[1..]); }
  }

  lemma {:induction false} LateSort(es: seq<Event>)
    requires Deltas(es)
    ensures AllLate(SortedStartsFirst(es)) == Sorted(AllLate(es)) && Deltas(SortedStartsFirst(es))
  {
    if es != [] {
      var n := |es| - 1;
      LateSort(es[..n]);
      assert AllLate(es)[..n] == AllLate(es[..n]) && AllLate(es)[n] == Late(es[n]);
      LateInsert(es[n], SortedStartsFirst(es[..n]));
      InsertKeepsDeltas(es[n], SortedStartsFirst(es[..n]));
    }
  }

  lemma {:induction false} LateSum(es: seq<Event>)
    ensures Sum(AllLate(es)) == Sum(es)
  {
    if es != [] {
      var n := |es| - 1;
      assert AllLate(es)[..n] == AllLate(es[..n]);
      LateSum(es[..n]);
    }
  }

  /** At an even tick of the fast clock a call that ends there still counts; at the odd tick
      behind it only the calls in progress do. */
  lemma {:induction false} LateActive(rows: seq<Row>, t: int)
    ensures Active(LateRows(rows), 2 * t) == Active(rows, t) + EndingAt(rows, t)
    ensures Active(LateRows(rows), 2 * t + 1) <= Active(rows, t)
  {
    if rows != [] {
      var n := |rows| - 1;
      LateActive(rows[..n], t);
      var before := LateRows(rows[..n]);
      if Finalized(rows[n]) {
        assert LateRows(rows)[..|before|] == before;
      } else {
        assert LateRows(rows) == before;
      }
    }
  }

  ghost predicate IsMaximalSum(es: seq<Event>, peak: int) {
    (forall j | 0 <= j <= |es| :: Sum(es[..j]) <= peak) && exists j | 0 <= j <= |es| :: Sum(es[..j]) == peak
  }

  lemma LateMaximalSum(es: seq<Event>, peak: int)
    requires IsMaximalSum(es, peak)
    ensures IsMaximalSum(AllLate(es), peak)
  {
    forall j | 0 <= j <= |es| ensures Sum(AllLate(es)[..j]) == Sum(es[..j]) {
      assert AllLate(es)[..j] == AllLate(es[..j]);
      LateSum(es[..j]);
    }
    var j :| 0 <= j <= |es| && Sum(es[..j]) == peak;
    assert Sum(AllLate(es)[..j]) == peak;
  }

  lemma LatePeak(rows: seq<Row>, peak: int)
    requires IsMaximalSum(SortedStartsFirst(EventsOf(rows)), peak)
    ensures forall u :: Active(LateRows(rows), u) <= peak
    ensures peak == 0 || exists u :: Active(LateRows(rows), u) == peak
  {
    DeltasOfEvents(rows);
    LateSort(EventsOf(rows));
    LateRowsHaveLateEvents(rows);
    LateMaximalSum(SortedStartsFirst(EventsOf(rows)), peak);
    PeakIsTheMaximum(LateRows(rows), peak);
  }

  /** Sweeping with starts first would count the calls with started_at <= t <= ended_at. */
  lemma StartsFirstPeak(rows: seq<Row>, peak: int)
    requires IsMaximalSum(SortedStartsFirst(EventsOf(rows)), peak)
    ensures forall t :: Active(rows, t) + EndingAt(rows, t) <= peak
    ensures peak == 0 || exists t :: Active(rows, t) + EndingAt(rows, t) == peak
  {
    LatePeak(rows, peak);
    forall t ensures Active(rows, t) + EndingAt(rows, t) <= peak {
      LateActive(rows, t);
    }
    if peak != 0 {
      var u :| Active(LateRows(rows), u) == peak;
      LateActive(rows, u / 2);
      assert u == 2 * (u / 2) || u == 2 * (u / 2) + 1;
    }
  }

  /** It would overcount exactly when at some instant the calls in progress and those that end
      there together are more than ever are in progress. */
  lemma StartsFirstOvercountsExactlyWhen(rows: seq<Row>, peak: int, overcount: int)
    requires IsMaximalSum(Sorted(EventsOf(rows)), peak)
    requires IsMaximalSum(SortedStartsFirst(EventsOf(rows)), overcount)
    ensures peak <= overcount
    ensures peak < overcount <==> exists t :: Active(rows, t) + EndingAt(rows, t) > peak
  {
    PeakIsTheMaximum(rows, peak);
    StartsFirstPeak(rows, overcount);
    assert Sum(SortedStartsFirst(EventsOf(rows))[..0]) <= overcount;
    if peak != 0 {
      var t :| Active(rows, t) == peak;
      assert Active(rows, t) + EndingAt(rows, t) <= overcount;
    }
  }

  /** It would for two calls of which one starts as the other ends. */
  lemma BackToBackCallsOvercount(start: int, change: int, end: int, peak: int, overcount: int)
    requires 0 < start < change < end
    requires var rows := [Row(Some(start), Some(change)), Row(Some(change), Some(end))];
             && IsMaximalSum(Sorted(EventsOf(rows)), peak)
             && IsMaximalSum(SortedStartsFirst(EventsOf(rows)), overcount)
    ensures peak == 1 && overcount == 2
  {
    var rows := [Row(Some(start), Some(change)), Row(Some(change), Some(end))];
    PeakIsTheMaximum(rows, peak);
    StartsFirstPeak(rows, overcount);
    assert Sum(Sorted(EventsOf(rows))[..0]) <= peak;
    forall t ensures Active(rows, t) == if start <= t < end then 1 else 0 { ActiveOfTwo(rows, t); }
    forall t ensures EndingAt(rows, t) == if t == change || t == end then 1 else 0 { ActiveOfTwo(rows, t); }
    assert Active(rows, start) == 1;
    assert Active(rows, change) + EndingAt(rows, change) == 2;
  }

  lemma ActiveOfTwo(rows: seq<Row>, t: int)
    requires |rows| == 2
    ensures Active(rows, t) == (if Finalized(rows[0]) && Start(rows[0]) <= t < End(rows[0]) then 1 else 0)
                               + (if Finalized(rows[1]) && Start(rows[1]) <= t < End(rows[1]) then 1 else 0)
    ensures EndingAt(rows, t) == (if Finalized(rows[0]) && End(rows[0]) == t then 1 else 0)
                                 + (if Finalized(rows[1]) && End(rows[1]) == t then 1 else 0)
  {
    assert rows[..1] == [rows[0]] && rows[..1][..0] == [];
    assert Active(rows[..1], t) == if Finalized(rows[0]) && Start(rows[0]) <= t < End(rows[0]) then 1 else 0;
    assert EndingAt(rows[..1], t) == if Finalized(rows[0]) && End(rows[0]) == t then 1 else 0;
  }
}
