/**
 The latency observer (latency_observer.py, class LatencyObserver): groups the frames of a
 call into turns and writes one record for every turn the bot answers.

 A turn opens at a user start and closes at the next bot start.  The observer keeps a few
 fields per crossing; its records are specified by looking back over the whole trace from
 each bot start.
 */
module LatencyObserver {
  import opened Wrappers
  import opened Frames

  /** The keys of the observer's table of timestamps. */
  datatype Stage =
    UserStart | UserStop | AsrFinal | LlmBegin | LlmFirst | LlmFinish | TtsStart | TtsFirstAudio | BotStart

  datatype Record = Record(turnId: nat, e2e: Option<int>, stt: Option<int>, llmTtft: Option<int>,
                           llmTotal: Option<int>, ttsTtfb: Option<int>)

  type Times = map<Stage, real>

  datatype State = State(seen: set<int>, turnId: nat, turnOpen: bool, ts: Times, records: seq<Record>)

  // --- one crossing ------------------------------------------------------------------

  predicate Boundary(k: Kind) {
    k.UserStarted? || k.BotStarted?
  }

  /** The stage a frame times inside an open turn. */
  function StageOf(k: Kind): Option<Stage> {
    match k
    case UserStopped => Some(UserStop)
    case Transcription(_) => Some(AsrFinal)
    case LlmStart => Some(LlmBegin)
    case LlmText(_) => Some(LlmFirst)
    case LlmEnd => Some(LlmFinish)
    case TtsStarted => Some(TtsStart)
    case TtsAudio(_) => Some(TtsFirstAudio)
    case _ => None
  }

  /** round(): to the nearest integer, halves to the even one. */
  function Round(x: real): int {
    var f := x.Floor;
    if x - f as real < 0.5 then f
    else if x - f as real > 0.5 then f + 1
    else if f % 2 == 0 then f else f + 1
  }

  function Ms(later: Option<real>, earlier: Option<real>): Option<int> {
    if later.None? || earlier.None? then None else Some(Round((later.value - earlier.value) * 1000.0))
  }

  function Lookup(ts: Times, st: Stage): Option<real> {
    if st in ts then Some(ts[st]) else None
  }

  function Mark(ts: Times, st: Stage, now: real): Times {
    if st in ts then ts else ts[st := now]
  }

  function BuildRecord(turnId: nat, at: Stage -> Option<real>): Record {
    Record(turnId,
           Ms(at(BotStart), at(UserStop)),
           Ms(at(AsrFinal), at(UserStop)),
           Ms(at(LlmFirst), at(AsrFinal)),
           Ms(at(LlmFinish), at(LlmBegin)),
           Ms(at(TtsFirstAudio), at(TtsStart)))
  }

  /** An audio frame is remembered only while a turn is open; the other frames always. */
  function Step(s: State, c: Crossing): State {
    var k, id, now := c.frame.kind, c.frame.id, c.at;
    if k.TtsAudio? then
      if s.turnOpen && id !in s.seen then s.(seen := s.seen + {id}, ts := Mark(s.ts, TtsFirstAudio, now))
      else s
    else if !Boundary(k) && StageOf(k).None? then s
    else if id in s.seen then s
    else if k.UserStarted? then
      State(s.seen + {id}, s.turnId + 1, true, map[UserStart := now], s.records)
    else if k.BotStarted? then
      if !s.turnOpen then s.(seen := s.seen + {id})
      else
        var ts := Mark(s.ts, BotStart, now);
        State(s.seen + {id}, s.turnId, false, ts, s.records + [BuildRecord(s.turnId, st => Lookup(ts, st))])
    else
      s.(seen := s.seen + {id}, ts := if s.turnOpen then Mark(s.ts, StageOf(k).value, now) else s.ts)
  }

  function Run(tr: seq<Crossing>): State {
    if tr == [] then State({}, 0, false, map[], [])
    else Step(Run(tr[..|tr| - 1]), tr[|tr| - 1])
  }

  // --- the records, said over the whole trace --------------------------------------------

  /** Crossing i is the first crossing of a user start or a bot start. */
  predicate DistinctBoundary(tr: seq<Crossing>, i: nat)
    requires i < |tr|
  {
    Boundary(tr[i].frame.kind) && FirstCrossing(tr, i)
  }

  /** The latest distinct user or bot start before crossing n. */
  function LastBoundary(tr: seq<Crossing>, n: nat): (b: Option<nat>)
    requires n <= |tr|
    ensures b.Some? ==> b.value < n && DistinctBoundary(tr, b.value)
    ensures b.Some? ==> forall k | b.value < k < n :: !DistinctBoundary(tr, k)
    ensures b.None? ==> forall k | 0 <= k < n :: !DistinctBoundary(tr, k)
  {
    if n == 0 then None
    else if DistinctBoundary(tr, n - 1) then Some(n - 1)
    else LastBoundary(tr, n - 1)
  }

  /** Before crossing n a user has started and no bot has since. */
  predicate OpenAt(tr: seq<Crossing>, n: nat)
    requires n <= |tr|
  {
    LastBoundary(tr, n).Some? && tr[LastBoundary(tr, n).value].frame.kind.UserStarted?
  }

  function UserStarts(tr: seq<Crossing>, n: nat): nat
    requires n <= |tr|
  {
    if n == 0 then 0
    else UserStarts(tr, n - 1)
         + (if tr[n - 1].frame.kind.UserStarted? && FirstCrossing(tr, n - 1) then 1 else 0)
  }

  /** Crossing i counts for its stage: it is the first crossing of its frame or, for audio,
      the first one that happens inside a turn. */
  predicate Counts(tr: seq<Crossing>, i: nat)
    requires i < |tr|
  {
    if tr[i].frame.kind.TtsAudio?
    then forall k | 0 <= k < i && tr[k].frame.id == tr[i].frame.id :: !OpenAt(tr, k)
    else FirstCrossing(tr, i)
  }

  /** The time of the first crossing in [lo, hi) that counts for the stage. */
  function FirstTime(tr: seq<Crossing>, lo: nat, hi: nat, st: Stage): Option<real>
    requires lo <= hi <= |tr|
    decreases hi - lo
  {
    if lo == hi then None
    else if StageOf(tr[lo].frame.kind) == Some(st) && Counts(tr, lo) then Some(tr[lo].at)
    else FirstTime(tr, lo + 1, hi, st)
  }

  /** Crossing n closes a turn: a distinct bot start whose latest distinct boundary is a user start. */
  predicate Closes(tr: seq<Crossing>, n: nat)
    requires n < |tr|
  {
    tr[n].frame.kind.BotStarted? && FirstCrossing(tr, n) && OpenAt(tr, n)
  }

  /** The record of the turn that crossing n closes. */
  function RecordAt(tr: seq<Crossing>, n: nat): Record
    requires n < |tr| && Closes(tr, n)
  {
    RecordOf(tr, LastBoundary(tr, n).value + 1, n)
  }

  function RecordOf(tr: seq<Crossing>, lo: nat, n: nat): Record
    requires lo <= n < |tr|
  {
    BuildRecord(UserStarts(tr, n),
                st => if st == BotStart then Some(tr[n].at) else FirstTime(tr, lo, n, st))
  }

  function Records(tr: seq<Crossing>, n: nat): seq<Record>
    requires n <= |tr|
  {
    if n == 0 then []
    else Records(tr, n - 1) + (if Closes(tr, n - 1) then [RecordAt(tr, n - 1)] else [])
  }

  // --- the observer meets it ---------------------------------------------------------------

  lemma {:induction false} FirstTimeExtends(tr: seq<Crossing>, lo: nat, hi: nat, st: Stage)
    requires lo <= hi < |tr|
    ensures FirstTime(tr, lo, hi + 1, st)
         == if FirstTime(tr, lo, hi, st).Some? then FirstTime(tr, lo, hi, st)
            else if StageOf(tr[hi].frame.kind) == Some(st) && Counts(tr, hi) then Some(tr[hi].at)
            else None
    decreases hi - lo
  {
    if lo < hi { FirstTimeExtends(tr, lo + 1, hi, st); }
  }

  /** Crossing k made the observer remember its frame. */
  predicate Remembered(tr: seq<Crossing>, k: nat)
    requires k < |tr|
  {
    if tr[k].frame.kind.TtsAudio? then OpenAt(tr, k)
    else Boundary(tr[k].frame.kind) || StageOf(tr[k].frame.kind).Some?
  }

  /** The observer's fields after n crossings, in terms of the trace. */
  ghost predicate Tracks(s: State, tr: seq<Crossing>, n: nat)
    requires n <= |tr|
  {
    && (forall id :: id in s.seen <==> exists k | 0 <= k < n :: tr[k].frame.id == id && Remembered(tr, k))
    && s.turnId == UserStarts(tr, n)
    && s.turnOpen == OpenAt(tr, n)
    && (s.turnOpen ==> TimesAreFirst(s.ts, tr, LastBoundary(tr, n).value, n))
    && s.records == Records(tr, n)
  }

  ghost predicate TimesAreFirst(ts: Times, tr: seq<Crossing>, b: nat, n: nat)
    requires b < n <= |tr|
  {
    && BotStart !in ts
    && forall st | st != UserStart && st != BotStart :: Lookup(ts, st) == FirstTime(tr, b + 1, n, st)
  }

  lemma SeenMeansCrossed(s: State, tr: seq<Crossing>, n: nat)
    requires n < |tr| && FrameIdentity(tr) && Tracks(s, tr, n)
    requires Remembered(tr, n)
    ensures tr[n].frame.id !in s.seen <==>
            if tr[n].frame.kind.TtsAudio? then Counts(tr, n) else FirstCrossing(tr, n)
  {
    var id := tr[n].frame.id;
    if id !in s.seen {
      forall k | 0 <= k < n && tr[k].frame.id == id ensures !Remembered(tr, k) {}
    }
    assert forall k | 0 <= k < n && tr[k].frame.id == id :: tr[k].frame == tr[n].frame;
  }

  lemma SeenGrows(s: State, t: State, tr: seq<Crossing>, n: nat)
    requires n < |tr| && FrameIdentity(tr) && Tracks(s, tr, n)
    requires t.seen == if Remembered(tr, n) then s.seen + {tr[n].frame.id} else s.seen
    ensures forall id :: id in t.seen <==> exists k | 0 <= k < n + 1 :: tr[k].frame.id == id && Remembered(tr, k)
  {
    forall id ensures id in t.seen <==> exists k | 0 <= k < n + 1 :: tr[k].frame.id == id && Remembered(tr, k) {
      if id in s.seen {
        var k :| 0 <= k < n && tr[k].frame.id == id && Remembered(tr, k);
      }
    }
  }

  lemma TimesExtend(ts: Times, tr: seq<Crossing>, b: nat, n: nat)
    requires b < n < |tr| && TimesAreFirst(ts, tr, b, n)
    ensures TimesAreFirst(MarkedBy(ts, tr, n), tr, b, n + 1)
  {
    forall st | st != UserStart && st != BotStart
      ensures Lookup(MarkedBy(ts, tr, n), st) == FirstTime(tr, b + 1, n + 1, st)
    {
      FirstTimeExtends(tr, b + 1, n, st);
      assert Lookup(ts, st) == FirstTime(tr, b + 1, n, st);
    }
  }

  function MarkedBy(ts: Times, tr: seq<Crossing>, n: nat): Times
    requires n < |tr|
  {
    if StageOf(tr[n].frame.kind).Some? && Counts(tr, n)
    then Mark(ts, StageOf(tr[n].frame.kind).value, tr[n].at) else ts
  }

  lemma StepTracks(s: State, tr: seq<Crossing>, n: nat)
    requires n < |tr| && FrameIdentity(tr) && Tracks(s, tr, n)
    ensures Tracks(Step(s, tr[n]), tr, n + 1)
  {
    var t := Step(s, tr[n]);
    if Remembered(tr, n) { SeenMeansCrossed(s, tr, n); }
    SeenGrows(s, t, tr, n);
    if tr[n].frame.kind.UserStarted? && tr[n].frame.id !in s.seen {
      OpenedTimes(tr, n, tr[n].at);
    } else if s.turnOpen && t.turnOpen {
      StepMarks(s, tr, n);
      TimesExtend(s.ts, tr, LastBoundary(tr, n).value, n);
    }
    if Closes(tr, n) {
      SameRecord(s, tr, n);
    }
  }

  /** A turn that stays open has its table marked by the crossing. */
  lemma StepMarks(s: State, tr: seq<Crossing>, n: nat)
    requires n < |tr| && s.turnOpen && Step(s, tr[n]).turnOpen
    requires !(tr[n].frame.kind.UserStarted? && tr[n].frame.id !in s.seen)
    requires Remembered(tr, n) ==>
               (tr[n].frame.id !in s.seen <==>
                  if tr[n].frame.kind.TtsAudio? then Counts(tr, n) else FirstCrossing(tr, n))
    requires OpenAt(tr, n)
    ensures Step(s, tr[n]).ts == MarkedBy(s.ts, tr, n)
  {
  }

  lemma OpenedTimes(tr: seq<Crossing>, n: nat, now: real)
    requires n < |tr|
    ensures TimesAreFirst(map[UserStart := now], tr, n, n + 1)
  {
  }

  lemma SameRecord(s: State, tr: seq<Crossing>, n: nat)
    requires n < |tr| && Tracks(s, tr, n) && Closes(tr, n)
    ensures var ts := Mark(s.ts, BotStart, tr[n].at);
            BuildRecord(s.turnId, st => Lookup(ts, st)) == RecordAt(tr, n)
  {
    SameRecordOf(s.ts, tr, LastBoundary(tr, n).value, n);
  }

  lemma SameRecordOf(ts: Times, tr: seq<Crossing>, b: nat, n: nat)
    requires b < n < |tr| && TimesAreFirst(ts, tr, b, n)
    ensures var marked := Mark(ts, BotStart, tr[n].at);
            BuildRecord(UserStarts(tr, n), st => Lookup(marked, st)) == RecordOf(tr, b + 1, n)
  {
    var marked := Mark(ts, BotStart, tr[n].at);
    assert Lookup(marked, BotStart) == Some(tr[n].at);
    forall st | st != UserStart && st != BotStart ensures Lookup(marked, st) == FirstTime(tr, b + 1, n, st) {
      assert Lookup(ts, st) == FirstTime(tr, b + 1, n, st);
    }
  }

  lemma {:induction false} RunTracks(tr: seq<Crossing>, n: nat)
    requires n <= |tr| && FrameIdentity(tr)
    ensures Tracks(Run(tr[..n]), tr, n)
  {
    if n > 0 {
      RunTracks(tr, n - 1);
      StepTracks(Run(tr[..n - 1]), tr, n - 1);
      assert tr[..n][..n - 1] == tr[..n - 1];
    }
  }

  /** On every trace with repeated crossings the records are one for each distinct bot start
      that answers a user start, numbered by the distinct user starts and timed by the first
      crossings inside the turn. */
  lemma RecordsMeetTheSpecification(tr: seq<Crossing>)
    requires FrameIdentity(tr)
    ensures Run(tr).records == Records(tr, |tr|)
  {
    RunTracks(tr, |tr|);
    assert tr[..|tr|] == tr;
  }

  // --- what the specification says ----------------------------------------------------------

  /** A stage time is that of the earliest crossing in the window that counts for the stage. */
  lemma {:induction false} FirstTimeIsTheEarliest(tr: seq<Crossing>, lo: nat, hi: nat, st: Stage, m: nat)
    requires lo <= m < hi <= |tr|
    requires StageOf(tr[m].frame.kind) == Some(st) && Counts(tr, m)
    requires forall k | lo <= k < m :: !(StageOf(tr[k].frame.kind) == Some(st) && Counts(tr, k))
    ensures FirstTime(tr, lo, hi, st) == Some(tr[m].at)
    decreases hi - lo
  {
    if lo < m { FirstTimeIsTheEarliest(tr, lo + 1, hi, st, m); }
  }

  lemma {:induction false} FirstTimeInWindow(tr: seq<Crossing>, lo: nat, hi: nat, st: Stage)
    requires lo <= hi <= |tr|
    ensures FirstTime(tr, lo, hi, st).Some? <==>
            exists m | lo <= m < hi :: StageOf(tr[m].frame.kind) == Some(st) && Counts(tr, m)
    ensures FirstTime(tr, lo, hi, st).Some? ==> exists m | lo <= m < hi :: FirstTime(tr, lo, hi, st) == Some(tr[m].at)
    decreases hi - lo
  {
    if lo < hi { FirstTimeInWindow(tr, lo + 1, hi, st); }
  }

  ghost predicate ClockForward(tr: seq<Crossing>) {
    forall i, j | 0 <= i <= j < |tr| :: tr[i].at <= tr[j].at
  }

  lemma RoundKeepsSign(x: real)
    requires x >= 0.0
    ensures Round(x) >= 0
  {
  }

  /** End-to-end latency is never negative. */
  lemma EndToEndIsNotNegative(tr: seq<Crossing>, n: nat)
    requires ClockForward(tr) && n < |tr| && Closes(tr, n)
    ensures RecordAt(tr, n).e2e.Some? ==> RecordAt(tr, n).e2e.value >= 0
  {
    var b := LastBoundary(tr, n).value;
    var stop := FirstTime(tr, b + 1, n, UserStop);
    FirstTimeInWindow(tr, b + 1, n, UserStop);
    if stop.Some? {
      var m :| b + 1 <= m < n && stop == Some(tr[m].at);
      RoundKeepsSign((tr[n].at - tr[m].at) * 1000.0);
    }
  }

  // --- audio from before the turn ---------------------------------------------------------------

  /** From the user start that opens it on, the turn is open. */
  lemma {:induction false} OpenInside(tr: seq<Crossing>, n: nat, k: nat)
    requires n <= |tr| && OpenAt(tr, n) && LastBoundary(tr, n).value < k <= n
    ensures LastBoundary(tr, k) == LastBoundary(tr, n)
  {
    if k > LastBoundary(tr, n).value + 1 { OpenInside(tr, n, k - 1); }
  }

  /** Audio that counts in a turn is not new exactly if its frame had crossed before the turn. */
  lemma OldAudioExactlyWhen(tr: seq<Crossing>, n: nat, m: nat)
    requires n < |tr| && Closes(tr, n) && LastBoundary(tr, n).value < m < n
    requires tr[m].frame.kind.TtsAudio? && Counts(tr, m)
    ensures !FirstCrossing(tr, m) <==>
            exists k | 0 <= k <= LastBoundary(tr, n).value :: tr[k].frame.id == tr[m].frame.id
  {
    forall k | LastBoundary(tr, n).value < k < m ensures tr[k].frame.id != tr[m].frame.id {
      OpenInside(tr, n, k);
    }
  }

  /** It can be old: a frame of the greeting, with id 0, crosses once more in the first turn. */
  lemma OldAudioCanCount(tr: seq<Crossing>, bytes: nat)
    requires tr == [Crossing(Frame(0, TtsAudio(bytes)), 0.0), Crossing(Frame(1, UserStarted), 1.0),
                    Crossing(Frame(0, TtsAudio(bytes)), 2.0), Crossing(Frame(2, BotStarted), 3.0)]
    ensures FrameIdentity(tr) && ClockForward(tr) && Closes(tr, 3)
    ensures FirstTime(tr, LastBoundary(tr, 3).value + 1, 3, TtsFirstAudio) == Some(2.0)
  {
    assert LastBoundary(tr, 0) == None && LastBoundary(tr, 1) == None;
    assert LastBoundary(tr, 2) == Some(1) && LastBoundary(tr, 3) == Some(1);
    FirstTimeIsTheEarliest(tr, 2, 3, TtsFirstAudio, 2);
  }

  // --- latencies below zero ---------------------------------------------------------------------

  /** Crossing m is the first in [lo, hi) that counts for the stage. */
  ghost predicate IsFirst(tr: seq<Crossing>, lo: nat, hi: nat, st: Stage, m: nat)
    requires hi <= |tr|
  {
    && lo <= m < hi && StageOf(tr[m].frame.kind) == Some(st) && Counts(tr, m)
    && forall k | lo <= k < m :: !(StageOf(tr[k].frame.kind) == Some(st) && Counts(tr, k))
  }

  lemma {:induction false} FirstTimeHasItsCrossing(tr: seq<Crossing>, lo: nat, hi: nat, st: Stage) returns (m: nat)
    requires lo <= hi <= |tr| && FirstTime(tr, lo, hi, st).Some?
    ensures IsFirst(tr, lo, hi, st, m) && FirstTime(tr, lo, hi, st) == Some(tr[m].at)
    decreases hi - lo
  {
    if StageOf(tr[lo].frame.kind) == Some(st) && Counts(tr, lo) {
      m := lo;
    } else {
      m := FirstTimeHasItsCrossing(tr, lo + 1, hi, st);
    }
  }

  predicate IsNegative(ms: Option<int>) {
    ms.Some? && ms.value < 0
  }

  /** In the window the later stage is crossed first, at l, more than half a millisecond ahead
      of the earlier one, at e. */
  ghost predicate OutOfOrderAt(tr: seq<Crossing>, lo: nat, hi: nat, later: Stage, earlier: Stage, l: nat, e: nat)
    requires hi <= |tr|
  {
    l < e && IsFirst(tr, lo, hi, later, l) && IsFirst(tr, lo, hi, earlier, e) && tr[e].at - tr[l].at > 0.0005
  }

  ghost predicate OutOfOrder(tr: seq<Crossing>, lo: nat, hi: nat, later: Stage, earlier: Stage)
    requires hi <= |tr|
  {
    exists l: nat, e: nat :: OutOfOrderAt(tr, lo, hi, later, earlier, l, e)
  }

  lemma NegativeMs(a: real, u: real)
    ensures IsNegative(Ms(Some(a), Some(u))) <==> u - a > 0.0005
  {
  }

  lemma SignOfSpan(tr: seq<Crossing>, lo: nat, hi: nat, later: Stage, earlier: Stage, l: nat, e: nat)
    requires ClockForward(tr) && lo <= hi <= |tr|
    requires IsFirst(tr, lo, hi, later, l) && IsFirst(tr, lo, hi, earlier, e)
    ensures IsNegative(Ms(Some(tr[l].at), Some(tr[e].at))) <==> OutOfOrderAt(tr, lo, hi, later, earlier, l, e)
  {
    NegativeMs(tr[l].at, tr[e].at);
  }

  lemma FirstTimeIsAt(tr: seq<Crossing>, lo: nat, hi: nat, st: Stage, m: nat)
    requires lo <= hi <= |tr| && IsFirst(tr, lo, hi, st, m)
    ensures FirstTime(tr, lo, hi, st) == Some(tr[m].at)
  {
    FirstTimeIsTheEarliest(tr, lo, hi, st, m);
  }

  lemma NegativeIsOutOfOrder(tr: seq<Crossing>, lo: nat, hi: nat, later: Stage, earlier: Stage)
    requires ClockForward(tr) && lo <= hi <= |tr|
    requires FirstTime(tr, lo, hi, later).Some? && FirstTime(tr, lo, hi, earlier).Some?
    requires IsNegative(Ms(FirstTime(tr, lo, hi, later), FirstTime(tr, lo, hi, earlier)))
    ensures OutOfOrder(tr, lo, hi, later, earlier)
  {
    var l := FirstTimeHasItsCrossing(tr, lo, hi, later);
    var e := FirstTimeHasItsCrossing(tr, lo, hi, earlier);
    SignOfSpan(tr, lo, hi, later, earlier, l, e);
  }

  lemma OutOfOrderIsNegative(tr: seq<Crossing>, lo: nat, hi: nat, later: Stage, earlier: Stage)
    requires ClockForward(tr) && lo <= hi <= |tr| && OutOfOrder(tr, lo, hi, later, earlier)
    ensures IsNegative(Ms(FirstTime(tr, lo, hi, later), FirstTime(tr, lo, hi, earlier)))
  {
    var l: nat, e: nat :| OutOfOrderAt(tr, lo, hi, later, earlier, l, e);
    FirstTimeIsAt(tr, lo, hi, later, l);
    FirstTimeIsAt(tr, lo, hi, earlier, e);
    SignOfSpan(tr, lo, hi, later, earlier, l, e);
  }

  lemma NegativeWhenOutOfOrder(tr: seq<Crossing>, lo: nat, hi: nat, later: Stage, earlier: Stage)
    requires ClockForward(tr) && lo <= hi <= |tr|
    ensures IsNegative(Ms(FirstTime(tr, lo, hi, later), FirstTime(tr, lo, hi, earlier)))
            <==> OutOfOrder(tr, lo, hi, later, earlier)
  {
    if IsNegative(Ms(FirstTime(tr, lo, hi, later), FirstTime(tr, lo, hi, earlier))) {
      NegativeIsOutOfOrder(tr, lo, hi, later, earlier);
    }
    if OutOfOrder(tr, lo, hi, later, earlier) {
      OutOfOrderIsNegative(tr, lo, hi, later, earlier);
    }
  }

  /** The other four latencies have no floor: each is negative exactly when, inside the turn, its
      end is crossed before its beginning by more than half a millisecond. */
  lemma NegativeExactlyWhen(tr: seq<Crossing>, n: nat)
    requires ClockForward(tr) && n < |tr| && Closes(tr, n)
    ensures var lo, r := LastBoundary(tr, n).value + 1, RecordAt(tr, n);
            && (IsNegative(r.stt) <==> OutOfOrder(tr, lo, n, AsrFinal, UserStop))
            && (IsNegative(r.llmTtft) <==> OutOfOrder(tr, lo, n, LlmFirst, AsrFinal))
            && (IsNegative(r.llmTotal) <==> OutOfOrder(tr, lo, n, LlmFinish, LlmBegin))
            && (IsNegative(r.ttsTtfb) <==> OutOfOrder(tr, lo, n, TtsFirstAudio, TtsStart))
  {
    var lo := LastBoundary(tr, n).value + 1;
    NegativeWhenOutOfOrder(tr, lo, n, AsrFinal, UserStop);
    NegativeWhenOutOfOrder(tr, lo, n, LlmFirst, AsrFinal);
    NegativeWhenOutOfOrder(tr, lo, n, LlmFinish, LlmBegin);
    NegativeWhenOutOfOrder(tr, lo, n, TtsFirstAudio, TtsStart);
  }

  /** One frame a second, each crossing once. */
  function OneASecond(kinds: seq<Kind>): (tr: seq<Crossing>)
    ensures |tr| == |kinds|
  {
    seq(|kinds|, i requires 0 <= i < |kinds| => Crossing(Frame(i, kinds[i]), i as real))
  }

  lemma OneASecondIsPlain(kinds: seq<Kind>)
    ensures FrameIdentity(OneASecond(kinds)) && ClockForward(OneASecond(kinds))
    ensures forall i | 0 <= i < |kinds| :: FirstCrossing(OneASecond(kinds), i) && Counts(OneASecond(kinds), i)
  {
  }

  lemma {:induction false} TurnStaysOpen(kinds: seq<Kind>, n: nat)
    requires 0 < n <= |kinds| && kinds[0].UserStarted? && forall k | 0 < k < n :: !Boundary(kinds[k])
    ensures LastBoundary(OneASecond(kinds), n) == Some(0)
  {
    if n > 1 { TurnStaysOpen(kinds, n - 1); } else { OneASecondIsPlain(kinds); }
  }

  lemma OneTurn(kinds: seq<Kind>, n: nat)
    requires 0 < n < |kinds| && kinds[0].UserStarted? && kinds[n].BotStarted?
    requires forall k | 0 < k < n :: !Boundary(kinds[k])
    ensures LastBoundary(OneASecond(kinds), n) == Some(0) && Closes(OneASecond(kinds), n)
  {
    OneASecondIsPlain(kinds);
    TurnStaysOpen(kinds, n);
  }

  /** A turn with just two stages, each crossed once. */
  function Turn(first: Kind, second: Kind): seq<Kind> {
    [UserStarted, first, second, BotStarted]
  }

  lemma TurnOutOfOrder(first: Kind, second: Kind, later: Stage, earlier: Stage)
    requires StageOf(first) == Some(later) && StageOf(second) == Some(earlier) && later != earlier
    ensures OutOfOrder(OneASecond(Turn(first, second)), 1, 3, later, earlier)
  {
    var kinds, tr := Turn(first, second), OneASecond(Turn(first, second));
    OneASecondIsPlain(kinds);
    assert tr[1].frame.kind == first && tr[2].frame.kind == second;
    assert OutOfOrderAt(tr, 1, 3, later, earlier, 1, 2);
  }

  lemma TurnCloses(first: Kind, second: Kind)
    requires StageOf(first).Some? && StageOf(second).Some?
    ensures var tr := OneASecond(Turn(first, second));
            FrameIdentity(tr) && ClockForward(tr) && Closes(tr, 3) && LastBoundary(tr, 3) == Some(0)
  {
    OneASecondIsPlain(Turn(first, second));
    OneTurn(Turn(first, second), 3);
  }

  ghost predicate IsNegativeSpan(r: Record, later: Stage, earlier: Stage) {
    || (later == AsrFinal && earlier == UserStop && IsNegative(r.stt))
    || (later == LlmFirst && earlier == AsrFinal && IsNegative(r.llmTtft))
    || (later == LlmFinish && earlier == LlmBegin && IsNegative(r.llmTotal))
    || (later == TtsFirstAudio && earlier == TtsStart && IsNegative(r.ttsTtfb))
  }

  predicate IsSpan(later: Stage, earlier: Stage) {
    (later, earlier) in {(AsrFinal, UserStop), (LlmFirst, AsrFinal), (LlmFinish, LlmBegin), (TtsFirstAudio, TtsStart)}
  }

  lemma SpanOutOfOrder(tr: seq<Crossing>, b: nat, n: nat, later: Stage, earlier: Stage)
    requires ClockForward(tr) && n < |tr| && Closes(tr, n) && IsSpan(later, earlier)
    requires LastBoundary(tr, n) == Some(b) && OutOfOrder(tr, b + 1, n, later, earlier)
    ensures IsNegativeSpan(RecordAt(tr, n), later, earlier)
  {
    NegativeExactlyWhen(tr, n);
  }

  /** All four can be negative: a final transcript may come before the stop, and the last frames
      of an interrupted reply fall into the next turn. */
  lemma EachCanBeNegative(first: Kind, second: Kind, later: Stage, earlier: Stage)
    requires StageOf(first) == Some(later) && StageOf(second) == Some(earlier) && IsSpan(later, earlier)
    ensures var tr := OneASecond(Turn(first, second));
            Closes(tr, 3) && IsNegativeSpan(RecordAt(tr, 3), later, earlier)
  {
    TurnCloses(first, second);
    TurnOutOfOrder(first, second, later, earlier);
    SpanOutOfOrder(OneASecond(Turn(first, second)), 0, 3, later, earlier);
  }

  // --- the values of a record -----------------------------------------------------------------

  predicate IsUserStopped(k: Kind) {
    k.UserStopped?
  }

  predicate IsTranscription(k: Kind) {
    k.Transcription?
  }

  predicate IsLlmStart(k: Kind) {
    k.LlmStart?
  }

  predicate IsLlmText(k: Kind) {
    k.LlmText?
  }

  predicate IsLlmEnd(k: Kind) {
    k.LlmEnd?
  }

  predicate IsTtsStarted(k: Kind) {
    k.TtsStarted?
  }

  predicate IsTtsAudio(k: Kind) {
    k.TtsAudio?
  }

  /** Crossing m is the first in [lo, hi) that counts and whose frame is of the kind p. */
  ghost predicate FirstOf(tr: seq<Crossing>, lo: nat, hi: nat, p: Kind -> bool, m: nat)
    requires hi <= |tr|
  {
    && lo <= m < hi && p(tr[m].frame.kind) && Counts(tr, m)
    && forall k | lo <= k < m :: !(p(tr[k].frame.kind) && Counts(tr, k))
  }

  ghost predicate Has(tr: seq<Crossing>, lo: nat, hi: nat, p: Kind -> bool)
    requires hi <= |tr|
  {
    exists m: nat :: FirstOf(tr, lo, hi, p, m)
  }

  /** The whole number of milliseconds nearest to the span, the even one when two are. */
  predicate IsMs(k: int, seconds: real) {
    var d := k as real - 1000.0 * seconds;
    -0.5 <= d <= 0.5 && (d == 0.5 || d == -0.5 ==> k % 2 == 0)
  }

  /** The latency from the first frame of one kind to the first of another, none if either is missing. */
  ghost predicate IsSpanOf(ms: Option<int>, tr: seq<Crossing>, lo: nat, hi: nat, from: Kind -> bool, to: Kind -> bool)
    requires hi <= |tr|
  {
    && (ms.Some? <==> Has(tr, lo, hi, from) && Has(tr, lo, hi, to))
    && forall e: nat, l: nat | FirstOf(tr, lo, hi, from, e) && FirstOf(tr, lo, hi, to, l) ::
         ms.Some? && IsMs(ms.value, tr[l].at - tr[e].at)
  }

  /** The latency from the first frame of a kind to crossing n. */
  ghost predicate IsSpanTo(ms: Option<int>, tr: seq<Crossing>, lo: nat, n: nat, from: Kind -> bool)
    requires n < |tr|
  {
    && (ms.Some? <==> Has(tr, lo, n, from))
    && forall e: nat | FirstOf(tr, lo, n, from, e) :: ms.Some? && IsMs(ms.value, tr[n].at - tr[e].at)
  }

  /** The stage times the frames of kind p and no others. */
  ghost predicate IsKindOf(st: Stage, p: Kind -> bool) {
    forall k :: StageOf(k) == Some(st) <==> p(k)
  }

  lemma MsIsNearest(later: real, earlier: real)
    ensures IsMs(Ms(Some(later), Some(earlier)).value, later - earlier)
  {
  }

  lemma FirstOfIsFirst(tr: seq<Crossing>, lo: nat, hi: nat, st: Stage, p: Kind -> bool, m: nat)
    requires hi <= |tr| && IsKindOf(st, p)
    ensures FirstOf(tr, lo, hi, p, m) <==> IsFirst(tr, lo, hi, st, m)
  {
  }

  lemma FirstTimeIs(tr: seq<Crossing>, lo: nat, hi: nat, st: Stage, p: Kind -> bool)
    requires lo <= hi <= |tr| && IsKindOf(st, p)
    ensures FirstTime(tr, lo, hi, st).Some? <==> Has(tr, lo, hi, p)
    ensures forall m: nat | FirstOf(tr, lo, hi, p, m) :: FirstTime(tr, lo, hi, st) == Some(tr[m].at)
  {
    forall m: nat | FirstOf(tr, lo, hi, p, m) ensures FirstTime(tr, lo, hi, st) == Some(tr[m].at) {
      FirstOfIsFirst(tr, lo, hi, st, p, m);
      FirstTimeIsAt(tr, lo, hi, st, m);
    }
    if FirstTime(tr, lo, hi, st).Some? {
      var m := FirstTimeHasItsCrossing(tr, lo, hi, st);
      FirstOfIsFirst(tr, lo, hi, st, p, m);
    }
  }

  lemma SpanOf(tr: seq<Crossing>, lo: nat, hi: nat, later: Stage, earlier: Stage, from: Kind -> bool, to: Kind -> bool)
    requires lo <= hi <= |tr| && IsKindOf(earlier, from) && IsKindOf(later, to)
    ensures IsSpanOf(Ms(FirstTime(tr, lo, hi, later), FirstTime(tr, lo, hi, earlier)), tr, lo, hi, from, to)
  {
    FirstTimeIs(tr, lo, hi, earlier, from);
    FirstTimeIs(tr, lo, hi, later, to);
    forall e: nat, l: nat | FirstOf(tr, lo, hi, from, e) && FirstOf(tr, lo, hi, to, l)
      ensures IsMs(Ms(Some(tr[l].at), Some(tr[e].at)).value, tr[l].at - tr[e].at)
    {
      MsIsNearest(tr[l].at, tr[e].at);
    }
  }

  lemma SpanTo(tr: seq<Crossing>, lo: nat, n: nat, earlier: Stage, from: Kind -> bool)
    requires lo <= n < |tr| && IsKindOf(earlier, from)
    ensures IsSpanTo(Ms(Some(tr[n].at), FirstTime(tr, lo, n, earlier)), tr, lo, n, from)
  {
    FirstTimeIs(tr, lo, n, earlier, from);
    forall e: nat | FirstOf(tr, lo, n, from, e)
      ensures IsMs(Ms(Some(tr[n].at), Some(tr[e].at)).value, tr[n].at - tr[e].at)
    {
      MsIsNearest(tr[n].at, tr[e].at);
    }
  }

  lemma StagesOfKinds()
    ensures IsKindOf(UserStop, IsUserStopped) && IsKindOf(AsrFinal, IsTranscription)
    ensures IsKindOf(LlmBegin, IsLlmStart) && IsKindOf(LlmFirst, IsLlmText) && IsKindOf(LlmFinish, IsLlmEnd)
    ensures IsKindOf(TtsStart, IsTtsStarted) && IsKindOf(TtsFirstAudio, IsTtsAudio)
  {
  }

  lemma RecordFields(tr: seq<Crossing>, lo: nat, n: nat)
    requires lo <= n < |tr|
    ensures var r := RecordOf(tr, lo, n);
            && r.e2e == Ms(Some(tr[n].at), FirstTime(tr, lo, n, UserStop))
            && r.stt == Ms(FirstTime(tr, lo, n, AsrFinal), FirstTime(tr, lo, n, UserStop))
            && r.llmTtft == Ms(FirstTime(tr, lo, n, LlmFirst), FirstTime(tr, lo, n, AsrFinal))
            && r.llmTotal == Ms(FirstTime(tr, lo, n, LlmFinish), FirstTime(tr, lo, n, LlmBegin))
            && r.ttsTtfb == Ms(FirstTime(tr, lo, n, TtsFirstAudio), FirstTime(tr, lo, n, TtsStart))
  {
  }

  /** Each latency measures what it is named for, in terms of the frames between lo and n. */
  ghost predicate Measures(r: Record, tr: seq<Crossing>, lo: nat, n: nat)
    requires n < |tr|
  {
    && IsSpanTo(r.e2e, tr, lo, n, IsUserStopped)
    && IsSpanOf(r.stt, tr, lo, n, IsUserStopped, IsTranscription)
    && IsSpanOf(r.llmTtft, tr, lo, n, IsTranscription, IsLlmText)
    && IsSpanOf(r.llmTotal, tr, lo, n, IsLlmStart, IsLlmEnd)
    && IsSpanOf(r.ttsTtfb, tr, lo, n, IsTtsStarted, IsTtsAudio)
  }

  lemma RecordMeasures(tr: seq<Crossing>, lo: nat, n: nat)
    requires lo <= n < |tr|
    ensures Measures(RecordOf(tr, lo, n), tr, lo, n)
  {
    StagesOfKinds();
    RecordFields(tr, lo, n);
    SpanTo(tr, lo, n, UserStop, IsUserStopped);
    SpanOf(tr, lo, n, AsrFinal, UserStop, IsUserStopped, IsTranscription);
    SpanOf(tr, lo, n, LlmFirst, AsrFinal, IsTranscription, IsLlmText);
    SpanOf(tr, lo, n, LlmFinish, LlmBegin, IsLlmStart, IsLlmEnd);
    SpanOf(tr, lo, n, TtsFirstAudio, TtsStart, IsTtsStarted, IsTtsAudio);
  }

  /** The record of the turn that crossing n closes has the latencies between the frames of that turn. */
  lemma LatencyValues(tr: seq<Crossing>, n: nat)
    requires n < |tr| && Closes(tr, n)
    ensures Measures(RecordAt(tr, n), tr, LastBoundary(tr, n).value + 1, n)
  {
    var lo := LastBoundary(tr, n).value + 1;
    assert RecordAt(tr, n) == RecordOf(tr, lo, n);
    RecordMeasures(tr, lo, n);
  }

  /** At b a user starts, and until n nobody starts: later crossings of known frames aside. */
  ghost predicate Opens(tr: seq<Crossing>, b: nat, n: nat)
    requires b < n <= |tr|
  {
    && tr[b].frame.kind == UserStarted && FirstCrossing(tr, b)
    && forall k | b < k < n && FirstCrossing(tr, k) :: tr[k].frame.kind != UserStarted && tr[k].frame.kind != BotStarted
  }

  /** A turn is closed by the first crossing of a bot start that such a user start precedes. */
  lemma ClosesExactlyWhen(tr: seq<Crossing>, n: nat)
    requires n < |tr|
    ensures Closes(tr, n) <==>
            tr[n].frame.kind == BotStarted && FirstCrossing(tr, n) && exists b: nat | b < n :: Opens(tr, b, n)
    ensures Closes(tr, n) ==> Opens(tr, LastBoundary(tr, n).value, n)
  {
    forall b: nat | b < n && Opens(tr, b, n) ensures LastBoundary(tr, n) == Some(b) { OpensIsLast(tr, b, n); }
    if OpenAt(tr, n) { LastOpens(tr, LastBoundary(tr, n).value, n); }
  }

  lemma OpensIsLast(tr: seq<Crossing>, b: nat, n: nat)
    requires b < n <= |tr| && Opens(tr, b, n)
    ensures LastBoundary(tr, n) == Some(b)
  {
    assert DistinctBoundary(tr, b);
  }

  lemma LastOpens(tr: seq<Crossing>, b: nat, n: nat)
    requires b < n <= |tr| && LastBoundary(tr, n) == Some(b) && tr[b].frame.kind.UserStarted?
    ensures Opens(tr, b, n)
  {
    forall k | b < k < n && FirstCrossing(tr, k) ensures !Boundary(tr[k].frame.kind) {
      assert !DistinctBoundary(tr, k);
    }
  }

  /** The distinct user starts before crossing n. */
  function UserStartSet(tr: seq<Crossing>, n: nat): set<nat>
    requires n <= |tr|
  {
    set i: nat | i < n && tr[i].frame.kind.UserStarted? && FirstCrossing(tr, i)
  }

  /** A turn's number is the number of them. */
  lemma {:induction false} TurnNumber(tr: seq<Crossing>, n: nat)
    requires n <= |tr|
    ensures UserStarts(tr, n) == |UserStartSet(tr, n)|
    ensures n < |tr| && Closes(tr, n) ==> RecordAt(tr, n).turnId == |UserStartSet(tr, n)|
  {
    if n > 0 {
      TurnNumber(tr, n - 1);
      assert UserStartSet(tr, n) == UserStartSet(tr, n - 1) +
        (if tr[n - 1].frame.kind.UserStarted? && FirstCrossing(tr, n - 1) then {n - 1} else {});
    }
  }

  // --- the observer ----------------------------------------------------------------------

  class Observer {
    var seen: set<int>
    var turnId: nat
    var turnOpen: bool
    var ts: Times
    var records: seq<Record>   // what went to the log and, as latency_report, to the monitor

    function View(): State
      reads this
    {
      State(seen, turnId, turnOpen, ts, records)
    }

    constructor ()
      ensures View() == Run([])
    {
      seen, turnId, turnOpen, ts, records := {}, 0, false, map[], [];
    }

    method Dedupe(id: int) returns (first: bool)
      modifies this`seen
      ensures first == (id !in old(seen))
      ensures seen == old(seen) + {id}
    {
      first := id !in seen;
      seen := seen + {id};
    }

    method MarkStage(st: Stage, now: real)
      modifies this`ts
      ensures ts == Mark(old(ts), st, now)
    {
      if st !in ts {
        ts := ts[st := now];
      }
    }

    method OnUserStarted(now: real)
      modifies this`turnId, this`turnOpen, this`ts
      ensures turnId == old(turnId) + 1 && turnOpen && ts == map[UserStart := now]
    {
      turnId := turnId + 1;
      turnOpen := true;
      ts := map[];
      ts := ts[UserStart := now];
    }

    method OnBotStarted(now: real)
      modifies this`turnOpen, this`ts, this`records
      ensures !turnOpen
      ensures !old(turnOpen) ==> ts == old(ts) && records == old(records)
      ensures old(turnOpen) ==> ts == Mark(old(ts), BotStart, now)
      ensures old(turnOpen) ==>
                var marked := ts;
                records == old(records) + [BuildRecord(turnId, st => Lookup(marked, st))]
    {
      if !turnOpen { return; }
      MarkStage(BotStart, now);
      var marked := ts;
      turnOpen := false;
      records := records + [BuildRecord(turnId, st => Lookup(marked, st))];
    }

    method OnPushFrame(c: Crossing)
      modifies this
      ensures View() == Step(old(View()), c)
    {
      var k := c.frame.kind;
      if k.TtsAudio? {
        if turnOpen {
          var first := Dedupe(c.frame.id);
          if first { MarkStage(TtsFirstAudio, c.at); }
        }
        return;
      }
      if !Boundary(k) && StageOf(k).None? { return; }
      var first := Dedupe(c.frame.id);
      if !first { return; }
      if k.UserStarted? {
        OnUserStarted(c.at);
      } else if k.BotStarted? {
        OnBotStarted(c.at);
      } else if turnOpen {
        MarkStage(StageOf(k).value, c.at);
      }
    }
  }
}
