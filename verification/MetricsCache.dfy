/**
 The dashboard's cache (bot.py, _collect_metrics): a check, a lock, a second check, a scan.

 Any number of callers run concurrently; each stretch between two awaits is one atomic step.
 A payload is identified by the time its history scan started.  A scan that fails still fills
 the cache (with no rows); a caller that is cancelled does not.
 */
module MetricsCache {
  import opened Wrappers

  const TTL: real := 10.0

  datatype Caller =
    | Waiting                                     // missed, and waits for the lock
    | Scanning(startedAt: real)                   // holds the lock and awaits the scan
    | Served(scanAt: real, at: real, cached: bool)
    | Gone                                        // cancelled

  datatype Event =
    | Arrives
    | Acquires(id: nat)
    | ScanEnds(id: nat)
    | Abandons(id: nat)

  datatype Moment = Moment(event: Event, at: real)

  /** cacheTs is _METRICS_CACHE["ts"] once there is a value. */
  datatype State = State(cacheTs: Option<real>, lock: Option<nat>, callers: seq<Caller>)

  predicate Hit(s: State, now: real) {
    s.cacheTs.Some? && now - s.cacheTs.value < TTL
  }

  predicate Enabled(s: State, m: Moment) {
    match m.event
    case Arrives => true
    case Acquires(id) => id < |s.callers| && s.callers[id].Waiting? && s.lock.None?
    case ScanEnds(id) => id < |s.callers| && s.callers[id].Scanning?
    case Abandons(id) => id < |s.callers| && (s.callers[id].Waiting? || s.callers[id].Scanning?)
  }

  function Step(s: State, m: Moment): State
    requires Enabled(s, m)
  {
    match m.event
    case Arrives =>
      s.(callers := s.callers + [if Hit(s, m.at) then Served(s.cacheTs.value, m.at, true) else Waiting])
    case Acquires(id) =>
      if Hit(s, m.at) then s.(callers := s.callers[id := Served(s.cacheTs.value, m.at, true)])
      else s.(lock := Some(id), callers := s.callers[id := Scanning(m.at)])
    case ScanEnds(id) =>
      var started := s.callers[id].startedAt;
      State(Some(started), None, s.callers[id := Served(started, m.at, false)])
    case Abandons(id) =>
      s.(lock := if s.callers[id].Scanning? then None else s.lock, callers := s.callers[id := Gone])
  }

  predicate Next(s: State, m: Moment, t: State) {
    Enabled(s, m) && t == Step(s, m)
  }

  /** ss[i] is the state before step tr[i]. */
  ghost predicate IsRun(ss: seq<State>, tr: seq<Moment>) {
    && |ss| == |tr| + 1
    && ss[0] == State(None, None, [])
    && forall i | 0 <= i < |tr| :: Next(ss[i], tr[i], ss[i + 1])
  }

  ghost predicate ClockForward(tr: seq<Moment>) {
    forall i, j | 0 <= i <= j < |tr| :: tr[i].at <= tr[j].at
  }

  // --- one scan at a time ------------------------------------------------------------

  ghost predicate OneScan(s: State) {
    && (forall k | 0 <= k < |s.callers| && s.callers[k].Scanning? :: s.lock == Some(k))
    && (s.lock.Some? ==> s.lock.value < |s.callers| && s.callers[s.lock.value].Scanning?)
  }

  /** The lock is held exactly by the one caller whose scan is in flight. */
  lemma {:induction false} AtMostOneScan(ss: seq<State>, tr: seq<Moment>, i: nat)
    requires IsRun(ss, tr) && i <= |tr|
    ensures OneScan(ss[i])
  {
    if i > 0 {
      AtMostOneScan(ss, tr, i - 1);
      assert Next(ss[i - 1], tr[i - 1], ss[i]);
    }
  }

  // --- scans are a TTL apart ---------------------------------------------------------------

  /** Step i starts a scan. */
  ghost predicate StartsScan(ss: seq<State>, tr: seq<Moment>, i: nat)
    requires i < |tr| && |ss| == |tr| + 1
  {
    tr[i].event.Acquires? && !Hit(ss[i], tr[i].at)
  }

  /** The caller that starts the scan at step i is cancelled during it, before step j. */
  ghost predicate ScanAbandoned(tr: seq<Moment>, i: nat, j: nat)
    requires i < j <= |tr| && tr[i].event.Acquires?
  {
    exists k | i < k < j :: tr[k].event == Abandons(tr[i].event.id)
  }

  /** From its start on, a scan that is not abandoned is in flight or has filled the cache. */
  lemma {:induction false} ScanFillsTheCache(ss: seq<State>, tr: seq<Moment>, i: nat, j: nat)
    requires IsRun(ss, tr) && ClockForward(tr) && i < j <= |tr|
    requires StartsScan(ss, tr, i) && !ScanAbandoned(tr, i, j)
    ensures var id := tr[i].event.id;
            || (ss[j].lock == Some(id) && id < |ss[j].callers| && ss[j].callers[id] == Scanning(tr[i].at))
            || (ss[j].cacheTs.Some? && ss[j].cacheTs.value >= tr[i].at)
    ensures forall k | 0 <= k < |ss[j].callers| && ss[j].callers[k].Scanning? :: ss[j].callers[k].startedAt >= tr[i].at
    decreases j
  {
    assert Next(ss[j - 1], tr[j - 1], ss[j]);
    AtMostOneScan(ss, tr, j - 1);
    if i < j - 1 {
      ScanFillsTheCache(ss, tr, i, j - 1);
      assert tr[j - 1].event != Abandons(tr[i].event.id);
    }
  }

  /** Two scans start at least the TTL apart, unless the earlier one was abandoned. */
  lemma ScansAreATtlApart(ss: seq<State>, tr: seq<Moment>, i: nat, j: nat)
    requires IsRun(ss, tr) && ClockForward(tr) && i < j < |tr|
    requires StartsScan(ss, tr, i) && StartsScan(ss, tr, j) && !ScanAbandoned(tr, i, j)
    ensures tr[j].at - tr[i].at >= TTL
  {
    assert Next(ss[j], tr[j], ss[j + 1]);
    ScanFillsTheCache(ss, tr, i, j);
  }

  /** The number of scans started in steps i up to j. */
  ghost function Scans(ss: seq<State>, tr: seq<Moment>, i: nat, j: nat): nat
    requires i <= j <= |tr| && |ss| == |tr| + 1
    decreases j
  {
    if i == j then 0 else Scans(ss, tr, i, j - 1) + (if StartsScan(ss, tr, j - 1) then 1 else 0)
  }

  /** Of the scans started in steps i up to j, those abandoned before step h. */
  ghost function Abandoned(ss: seq<State>, tr: seq<Moment>, i: nat, j: nat, h: nat): nat
    requires i <= j <= h <= |tr| && |ss| == |tr| + 1
    decreases j
  {
    if i == j then 0
    else Abandoned(ss, tr, i, j - 1, h)
         + (if StartsScan(ss, tr, j - 1) && ScanAbandoned(tr, j - 1, h) then 1 else 0)
  }

  lemma {:induction false} AbandonedGrows(ss: seq<State>, tr: seq<Moment>, i: nat, j: nat, k: nat, h: nat, g: nat)
    requires i <= j <= k && j <= h <= g && k <= g <= |tr| && |ss| == |tr| + 1
    ensures Abandoned(ss, tr, i, j, h) <= Abandoned(ss, tr, i, k, g)
    decreases k
  {
    if j < k {
      AbandonedGrows(ss, tr, i, j, k - 1, h, g);
    } else if i < j {
      AbandonedGrows(ss, tr, i, j - 1, k - 1, h, g);
    }
  }

  lemma AbandonedUpTo(ss: seq<State>, tr: seq<Moment>, i: nat, before: nat, last: nat)
    requires i <= before < last <= |tr| && |ss| == |tr| + 1 && StartsScan(ss, tr, before)
    ensures Abandoned(ss, tr, i, last, last) >= Abandoned(ss, tr, i, before, before)
    ensures ScanAbandoned(tr, before, last) ==>
              Abandoned(ss, tr, i, last, last) >= Abandoned(ss, tr, i, before, before) + 1
  {
    AbandonedGrows(ss, tr, i, before, before, before, last);
    AbandonedGrows(ss, tr, i, before + 1, last, last, last);
  }

  lemma OneMoreGap(scans: nat, a: nat, b: nat, span: real, gap: real)
    requires (scans - 1 - a) as real * TTL <= span && gap >= 0.0 && a <= b
    requires a < b || gap >= TTL
    ensures (scans + 1 - 1 - b) as real * TTL <= span + gap
  {
  }

  /** Up to its last scan, a window holds a TTL for every scan but the first and the abandoned ones. */
  lemma {:induction false} SpanOfScans(ss: seq<State>, tr: seq<Moment>, i: nat, j: nat) returns (last: nat)
    requires IsRun(ss, tr) && ClockForward(tr) && i <= j <= |tr|
    requires Scans(ss, tr, i, j) > 0
    ensures i <= last < j && StartsScan(ss, tr, last)
    ensures (Scans(ss, tr, i, j) - 1 - Abandoned(ss, tr, i, last, last)) as real * TTL <= tr[last].at - tr[i].at
    decreases j
  {
    if StartsScan(ss, tr, j - 1) {
      last := j - 1;
      if Scans(ss, tr, i, j - 1) > 0 {
        var before := SpanOfScans(ss, tr, i, j - 1);
        AbandonedUpTo(ss, tr, i, before, last);
        if !ScanAbandoned(tr, before, last) { ScansAreATtlApart(ss, tr, before, last); }
        OneMoreGap(Scans(ss, tr, i, last), Abandoned(ss, tr, i, before, before), Abandoned(ss, tr, i, last, last),
                   tr[before].at - tr[i].at, tr[last].at - tr[before].at);
      }
    } else {
      last := SpanOfScans(ss, tr, i, j - 1);
    }
  }

  /** A window of a run has at most window / TTL + 1 scans, and one more for every scan of the
      window that is abandoned in it. */
  lemma ScansPerWindow(ss: seq<State>, tr: seq<Moment>, i: nat, j: nat)
    requires IsRun(ss, tr) && ClockForward(tr) && i < j <= |tr|
    ensures Scans(ss, tr, i, j) as real
            <= (tr[j - 1].at - tr[i].at) / TTL + 1.0 + Abandoned(ss, tr, i, j, j) as real
  {
    if Scans(ss, tr, i, j) > 0 {
      var last := SpanOfScans(ss, tr, i, j);
      AbandonedGrows(ss, tr, i, last, j, last, j);
      assert tr[last].at <= tr[j - 1].at;
    }
  }

  // --- what is served ---------------------------------------------------------------------

  /** A scan in flight has been started by its caller, and has not been abandoned. */
  lemma {:induction false} ScanHasAStart(ss: seq<State>, tr: seq<Moment>, j: nat, c: nat) returns (i: nat)
    requires IsRun(ss, tr) && j <= |tr| && c < |ss[j].callers| && ss[j].callers[c].Scanning?
    ensures i < j && StartsScan(ss, tr, i) && tr[i].at == ss[j].callers[c].startedAt
    ensures tr[i].event.id == c && !ScanAbandoned(tr, i, j)
  {
    assert Next(ss[j - 1], tr[j - 1], ss[j]);
    if c < |ss[j - 1].callers| && ss[j - 1].callers[c] == ss[j].callers[c] {
      i := ScanHasAStart(ss, tr, j - 1, c);
    } else {
      i := j - 1;
    }
  }

  /** What is cached comes from a scan that was not abandoned. */
  lemma {:induction false} CacheHasAScan(ss: seq<State>, tr: seq<Moment>, j: nat) returns (i: nat)
    requires IsRun(ss, tr) && j <= |tr| && ss[j].cacheTs.Some?
    ensures i < j && StartsScan(ss, tr, i) && tr[i].at == ss[j].cacheTs.value
    ensures tr[i].event.id < |ss[j].callers| && ss[j].callers[tr[i].event.id].Served? && !ScanAbandoned(tr, i, j)
  {
    assert Next(ss[j - 1], tr[j - 1], ss[j]);
    if tr[j - 1].event.ScanEnds? {
      i := ScanHasAStart(ss, tr, j - 1, tr[j - 1].event.id);
    } else {
      i := CacheHasAScan(ss, tr, j - 1);
    }
  }

  /** Step j serves caller c from the cache. */
  ghost predicate ServesFromCache(ss: seq<State>, j: nat, c: nat)
    requires j + 1 < |ss|
  {
    && c < |ss[j + 1].callers| && ss[j + 1].callers[c].Served? && ss[j + 1].callers[c].cached
    && (c < |ss[j].callers| ==> !ss[j].callers[c].Served?)
  }

  /** Whatever is served from the cache comes from a scan started less than a TTL ago. */
  lemma CachedPayloadIsFresh(ss: seq<State>, tr: seq<Moment>, j: nat, c: nat)
    requires IsRun(ss, tr) && j < |tr| && ServesFromCache(ss, j, c)
    ensures exists i | 0 <= i < j ::
              StartsScan(ss, tr, i) && tr[i].at == ss[j + 1].callers[c].scanAt && tr[j].at - tr[i].at < TTL
  {
    assert Next(ss[j], tr[j], ss[j + 1]);
    var i := CacheHasAScan(ss, tr, j);
    assert StartsScan(ss, tr, i) && tr[i].at == ss[j + 1].callers[c].scanAt;
  }

  /** A caller that gets the lock scans exactly when every scan that started less than a TTL
      ago has been abandoned. */
  lemma ScansExactlyWhen(ss: seq<State>, tr: seq<Moment>, j: nat)
    requires IsRun(ss, tr) && ClockForward(tr) && j < |tr| && tr[j].event.Acquires?
    ensures StartsScan(ss, tr, j) <==>
            forall i: nat | i < j && StartsScan(ss, tr, i) && tr[j].at - tr[i].at < TTL :: ScanAbandoned(tr, i, j)
  {
    if StartsScan(ss, tr, j) {
      forall i: nat | i < j && StartsScan(ss, tr, i) && tr[j].at - tr[i].at < TTL ensures ScanAbandoned(tr, i, j) {
        if !ScanAbandoned(tr, i, j) { ScansAreATtlApart(ss, tr, i, j); }
      }
    } else {
      var i := CacheHasAScan(ss, tr, j);
      assert tr[j].at - tr[i].at < TTL;
    }
  }

  // --- what the code does not promise ------------------------------------------------------

  /** One caller scans, another waits for it, and the first is cancelled. */
  function CancelledScan(): seq<Moment> {
    [Moment(Arrives, 0.0), Moment(Acquires(0), 0.0), Moment(Arrives, 0.5), Moment(Abandons(0), 1.0),
     Moment(Acquires(1), 1.0)]
  }

  lemma FirstScanIsAbandoned(ss: seq<State>)
    requires ss == [State(None, None, []), State(None, None, [Waiting]), State(None, Some(0), [Scanning(0.0)]),
                    State(None, Some(0), [Scanning(0.0), Waiting]), State(None, None, [Gone, Waiting])]
    ensures forall i | 0 <= i < 4 :: Next(ss[i], CancelledScan()[i], ss[i + 1])
  {
  }

  lemma SecondScanStarts(s: State, t: State)
    requires s == State(None, None, [Gone, Waiting]) && t == State(None, Some(1), [Gone, Scanning(1.0)])
    ensures Next(s, CancelledScan()[4], t)
  {
  }

  /** A cancelled scan leaves the cache as it was: the next caller scans at once. */
  lemma AbandonedScanIsRepeated()
    ensures exists ss: seq<State> | IsRun(ss, CancelledScan()) ::
              && ClockForward(CancelledScan())
              && StartsScan(ss, CancelledScan(), 1) && StartsScan(ss, CancelledScan(), 4)
              && CancelledScan()[4].at - CancelledScan()[1].at < TTL
  {
    var s4 := State(None, None, [Gone, Waiting]);
    var s5 := State(None, Some(1), [Gone, Scanning(1.0)]);
    var ss := [State(None, None, []), State(None, None, [Waiting]), State(None, Some(0), [Scanning(0.0)]),
               State(None, Some(0), [Scanning(0.0), Waiting]), s4];
    FirstScanIsAbandoned(ss);
    SecondScanStarts(s4, s5);
    assert IsRun(ss + [s5], CancelledScan());
  }

  // --- the shared variables ------------------------------------------------------------------

  class Collector {
    var cacheTs: Option<real>
    var lock: Option<nat>
    var callers: seq<Caller>

    function View(): State
      reads this
    {
      State(cacheTs, lock, callers)
    }

    constructor ()
      ensures View() == State(None, None, [])
    {
      cacheTs, lock, callers := None, None, [];
    }

    /** The check before the lock. */
    method Arrive(now: real)
      modifies this
      ensures View() == Step(old(View()), Moment(Arrives, now))
    {
      if cacheTs.Some? && now - cacheTs.value < TTL {
        callers := callers + [Served(cacheTs.value, now, true)];
        return;
      }
      callers := callers + [Waiting];
    }

    /** From `async with _METRICS_LOCK` to the scan, with the check under the lock. */
    method Acquire(id: nat, now: real)
      requires Enabled(View(), Moment(Acquires(id), now))
      modifies this
      ensures View() == Step(old(View()), Moment(Acquires(id), now))
    {
      lock := Some(id);
      if cacheTs.Some? && now - cacheTs.value < TTL {
        callers := callers[id := Served(cacheTs.value, now, true)];
        lock := None;
        return;
      }
      callers := callers[id := Scanning(now)];
    }

    /** From the end of the scan on, whether it succeeded or failed. */
    method FinishScan(id: nat, now: real)
      requires Enabled(View(), Moment(ScanEnds(id), now))
      modifies this
      ensures View() == Step(old(View()), Moment(ScanEnds(id), now))
    {
      var started := callers[id].startedAt;
      cacheTs := Some(started);
      callers := callers[id := Served(started, now, false)];
      lock := None;
    }

    method Abandon(id: nat, now: real)
      requires Enabled(View(), Moment(Abandons(id), now))
      modifies this
      ensures View() == Step(old(View()), Moment(Abandons(id), now))
    {
      if callers[id].Scanning? {
        lock := None;
      }
      callers := callers[id := Gone];
    }
  }
}
