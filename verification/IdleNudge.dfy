/**
 The idle nudge (bot.py, closures of _build_pipeline): when the user stays silent the
 model is run again, but never while the bot is estimated to be audible, and at most
 IDLE_NUDGE_MAX times in a row.

 Every handler and every stretch of the re-check coroutine between two awaits is one
 atomic step.  A run is any interleaving of such steps; a sleep never ends early.
 */
module IdleNudge {
  import opened Wrappers
  import opened AsyncTasks
  import opened Playout

  const IDLE_NUDGE_MAX: nat := 2
  const RECHECK_MARGIN: real := 0.3
  const IDLE_NUDGE_TIMEOUT: real := 4.0

  datatype Event =
    | UserTurnIdle
    | UserTurnStarted
    | UserTurnStopped
    | Disconnected
    | BotAudio(bytes: nat)
    | BotTurnStart
    | BotTurnEnd
    | RecheckBegins(id: nat)   // the coroutine runs up to its sleep
    | RecheckWakes(id: nat)    // the coroutine runs on from its sleep

  datatype Moment = Moment(event: Event, at: real)

  /** `sent` lists the times at which a nudge was put into the context and queued. */
  datatype State = State(clock: Clock, count: nat, pending: Option<nat>, tasks: seq<Task>, sent: seq<real>)

  // --- atomic steps -------------------------------------------------------------

  function CancelPending(s: State): State {
    s.(tasks := Cancel(s.tasks, s.pending), pending := None)
  }

  function Defer(s: State, remaining: real): State {
    s.(tasks := s.tasks + [Created(remaining + RECHECK_MARGIN)], pending := Some(|s.tasks|))
  }

  function NudgeUnlessSpent(s: State, now: real): State {
    if s.count >= IDLE_NUDGE_MAX then s else s.(count := s.count + 1, sent := s.sent + [now])
  }

  function SignalOf(m: Moment): Option<Signal> {
    match m.event
    case BotAudio(n) => Some(Audio(n, m.at))
    case BotTurnStart => Some(TurnStart(m.at))
    case BotTurnEnd => Some(TurnEnd)
    case _ => None
  }

  predicate Enabled(s: State, m: Moment) {
    match m.event
    case RecheckBegins(id) => id < |s.tasks| && s.tasks[id].Created?
    case RecheckWakes(id) => id < |s.tasks| && s.tasks[id].Sleeping? && s.tasks[id].wakeAt <= m.at
    case _ => true
  }

  function Step(s: State, m: Moment): State
    requires Enabled(s, m)
  {
    match m.event
    case UserTurnIdle =>
      var remaining := s.clock.Remaining(m.at);
      if remaining > 0.0 then Defer(CancelPending(s), remaining) else NudgeUnlessSpent(s, m.at)
    case UserTurnStarted => CancelPending(s)
    case UserTurnStopped => CancelPending(s.(count := 0))
    case Disconnected => CancelPending(s)
    case RecheckBegins(id) =>
      s.(tasks := s.tasks[id := Sleeping(m.at + s.tasks[id].delay)])
    case RecheckWakes(id) =>
      var woken := s.(tasks := s.tasks[id := Finished], pending := None);
      var remaining := s.clock.Remaining(m.at);
      if remaining > 0.0 then Defer(woken, remaining) else NudgeUnlessSpent(woken, m.at)
    case _ => s.(clock := Advance(s.clock, SignalOf(m).value))
  }

  predicate Initial(s: State) {
    s == State(Fresh(s.clock.rate, s.clock.channels), 0, None, [], [])
  }

  predicate Next(s: State, m: Moment, t: State) {
    Enabled(s, m) && t == Step(s, m)
  }

  /** ss[i] is the state before step tr[i]. */
  ghost predicate IsRun(ss: seq<State>, tr: seq<Moment>) {
    && |ss| == |tr| + 1
    && Initial(ss[0])
    && (forall i | 0 <= i < |tr| :: Next(ss[i], tr[i], ss[i + 1]))
  }

  /** The monotonic clock never goes back.  Only the result on deferrals needs this. */
  ghost predicate ClockForward(tr: seq<Moment>) {
    forall i, j | 0 <= i <= j < |tr| :: tr[i].at <= tr[j].at
  }

  ghost predicate Nudged(ss: seq<State>, i: nat)
    requires i + 1 < |ss|
  {
    |ss[i + 1].sent| > |ss[i].sent|
  }

  /** A step that withdraws a pending nudge: the user speaks, or the call is over. */
  predicate Withdraws(e: Event) {
    e.UserTurnStarted? || e.UserTurnStopped? || e.Disconnected?
  }

  // --- the re-check task ----------------------------------------------------------

  /** pending_recheck names the one task that can still act, and there is no other. */
  ghost predicate OnlyPendingIsLive(s: State) {
    && (s.pending.Some? ==> s.pending.value < |s.tasks|)
    && forall k | 0 <= k < |s.tasks| :: Live(s.tasks[k]) <==> s.pending == Some(k)
  }

  lemma {:induction false} AtMostOneRecheck(ss: seq<State>, tr: seq<Moment>, i: nat)
    requires IsRun(ss, tr) && i <= |tr|
    ensures OnlyPendingIsLive(ss[i])
  {
    if i > 0 {
      AtMostOneRecheck(ss, tr, i - 1);
      assert Next(ss[i - 1], tr[i - 1], ss[i]);
    }
  }

  // --- the nudge budget -------------------------------------------------------------

  lemma {:induction false} BudgetHolds(ss: seq<State>, tr: seq<Moment>, i: nat, j: nat)
    requires IsRun(ss, tr) && i <= j <= |tr|
    ensures ss[j].count <= IDLE_NUDGE_MAX
    ensures ss[i].sent <= ss[j].sent
    ensures (forall k | i <= k < j :: !tr[k].event.UserTurnStopped?) ==>
              ss[j].count - ss[i].count == |ss[j].sent| - |ss[i].sent|
    decreases j
  {
    if j > 0 {
      assert Next(ss[j - 1], tr[j - 1], ss[j]);
      BudgetHolds(ss, tr, if i < j then i else j - 1, j - 1);
    }
  }

  /** Between two ends of a user turn the bot nudges at most IDLE_NUDGE_MAX times. */
  lemma NudgeBudget(ss: seq<State>, tr: seq<Moment>, i: nat, j: nat)
    requires IsRun(ss, tr) && i <= j <= |tr|
    requires forall k | i <= k < j :: !tr[k].event.UserTurnStopped?
    ensures |ss[j].sent| - |ss[i].sent| <= IDLE_NUDGE_MAX
  {
    BudgetHolds(ss, tr, i, j);
  }

  /** The point right behind the last end of a user turn, or the start of the call. */
  ghost predicate FreshBudget(tr: seq<Moment>, i: nat, j: nat)
    requires i <= j <= |tr|
  {
    (i == 0 || tr[i - 1].event.UserTurnStopped?) && forall k | i <= k < j :: !tr[k].event.UserTurnStopped?
  }

  /** An idle event or a re-check nudges exactly when playout is over and fewer than
      IDLE_NUDGE_MAX nudges have been sent since the last end of a user turn. */
  lemma NudgesExactlyWhen(ss: seq<State>, tr: seq<Moment>, i: nat, j: nat)
    requires IsRun(ss, tr) && i <= j < |tr| && FreshBudget(tr, i, j)
    ensures Nudged(ss, j) <==>
            && (tr[j].event.UserTurnIdle? || tr[j].event.RecheckWakes?)
            && ss[j].clock.Remaining(tr[j].at) <= 0.0
            && |ss[j].sent| - |ss[i].sent| < IDLE_NUDGE_MAX
  {
    assert Next(ss[j], tr[j], ss[j + 1]);
    if i > 0 { assert Next(ss[i - 1], tr[i - 1], ss[i]); }
    BudgetHolds(ss, tr, i, j);
  }

  // --- not before the estimated end of playout --------------------------------------------

  function Signals(tr: seq<Moment>): seq<Signal> {
    if tr == [] then []
    else
      var n := |tr| - 1;
      Signals(tr[..n]) + (if SignalOf(tr[n]).Some? then [SignalOf(tr[n]).value] else [])
  }

  lemma {:induction false} ClockFollowsSignals(ss: seq<State>, tr: seq<Moment>, i: nat)
    requires IsRun(ss, tr) && i <= |tr|
    ensures ss[i].clock == Reading(ss[0].clock, Signals(tr[..i]))
  {
    if i > 0 {
      ClockFollowsSignals(ss, tr, i - 1);
      assert Next(ss[i - 1], tr[i - 1], ss[i]);
      assert tr[..i][..i - 1] == tr[..i - 1];
      OneMoreSignal(ss[0].clock, Signals(tr[..i - 1]), tr[i - 1]);
    }
  }

  lemma OneMoreSignal(c: Clock, gs: seq<Signal>, m: Moment)
    ensures Reading(c, gs + (if SignalOf(m).Some? then [SignalOf(m).value] else []))
         == if SignalOf(m).Some? then Advance(Reading(c, gs), SignalOf(m).value) else Reading(c, gs)
  {
    if SignalOf(m).Some? {
      assert (gs + [SignalOf(m).value])[..|gs|] == gs;
    } else {
      assert gs + [] == gs;
    }
  }

  /** At a nudge, every byte of audio sent since the current bot turn was anchored has
      had the time to play. */
  lemma NudgeOnlyAfterPlayout(ss: seq<State>, tr: seq<Moment>, i: nat, a: nat)
    requires IsRun(ss, tr) && i < |tr| && Nudged(ss, i)
    requires a < |Signals(tr[..i])| && IsLastAnchor(Signals(tr[..i]), a)
    ensures Signals(tr[..i])[a].at
            + PcmSecs(AudioBytes(Signals(tr[..i])[a..]), ss[0].clock.rate, ss[0].clock.channels)
            <= tr[i].at
  {
    assert Next(ss[i], tr[i], ss[i + 1]);
    ClockFollowsSignals(ss, tr, i);
    ClockMeasuresTheLastTurn(ss[0].clock, Signals(tr[..i]), a);
    RunKeepsFormat(ss[0].clock, Signals(tr[..i]));
    assert ss[i].clock.Remaining(tr[i].at) <= 0.0;
  }

  /** If the bot's turn has neither run dry nor started over the audio of an earlier one, a nudge
      comes after the far end has played everything. */
  lemma NudgeAfterTheFarEnd(ss: seq<State>, tr: seq<Moment>, i: nat, a: nat)
    requires IsRun(ss, tr) && i < |tr| && Nudged(ss, i)
    requires var gs := Signals(tr[..i]);
             && TimesForward(gs) && a < |gs| && IsLastAnchor(gs, a) && HasAudio(gs, a, |gs|)
             && NoGapNoOverlap(ss[0].clock, gs, a, |gs|)
    ensures FifoEnd(Signals(tr[..i]), |Signals(tr[..i])|, ss[0].clock.rate, ss[0].clock.channels).Some?
    ensures FifoEnd(Signals(tr[..i]), |Signals(tr[..i])|, ss[0].clock.rate, ss[0].clock.channels).value <= tr[i].at
  {
    var gs := Signals(tr[..i]);
    assert gs[..|gs|] == gs;
    assert Next(ss[i], tr[i], ss[i + 1]);
    ClockFollowsSignals(ss, tr, i);
    EstimateExactlyWhen(ss[0].clock, gs, a, |gs|);
  }

  /** An idle event at t nudges. */
  predicate NudgesAt(s: State, t: real) {
    |Step(s, Moment(UserTurnIdle, t)).sent| > |s.sent|
  }

  /** After any run with audio in the bot's last turn, an idle event can nudge before the far end
      has played everything exactly if a nudge is left in the budget, the far end is still playing,
      and the turn has run dry or started over the audio of an earlier one. */
  lemma EarlyNudgeExactlyWhen(ss: seq<State>, tr: seq<Moment>, a: nat)
    requires IsRun(ss, tr) && tr != []
    requires var gs := Signals(tr); TimesForward(gs) && a < |gs| && IsLastAnchor(gs, a) && HasAudio(gs, a, |gs|)
    ensures var gs, s, last := Signals(tr), ss[|tr|], tr[|tr| - 1].at;
            var end := FifoEnd(gs, |gs|, ss[0].clock.rate, ss[0].clock.channels);
            && end.Some?
            && ((exists t :: last <= t < end.value && NudgesAt(s, t)) <==>
                s.count < IDLE_NUDGE_MAX && last < end.value && !NoGapNoOverlap(ss[0].clock, gs, a, |gs|))
  {
    var gs, s, last := Signals(tr), ss[|tr|], tr[|tr| - 1].at;
    assert tr[..|tr|] == tr && gs[..|gs|] == gs;
    ClockFollowsSignals(ss, tr, |tr|);
    EstimateExactlyWhen(ss[0].clock, gs, a, |gs|);
    var end := FifoEnd(gs, |gs|, ss[0].clock.rate, ss[0].clock.channels).value;
    var finish := s.clock.FinishAt().value;
    forall t ensures NudgesAt(s, t) <==> finish <= t && s.count < IDLE_NUDGE_MAX { IdleNudgesWhen(s, t); }
    if s.count < IDLE_NUDGE_MAX && last < end && finish < end {
      assert NudgesAt(s, if finish < last then last else finish);
    }
  }

  lemma IdleNudgesWhen(s: State, t: real)
    requires s.clock.FinishAt().Some?
    ensures NudgesAt(s, t) <==> s.clock.FinishAt().value <= t && s.count < IDLE_NUDGE_MAX
  {
  }

  // --- every nudge goes back to a silence nobody has broken --------------------------

  /** The idle event behind a pending re-check; nothing withdrew the nudge since. */
  ghost predicate UnbrokenSilence(tr: seq<Moment>, o: nat, i: nat)
    requires o < |tr| && i <= |tr|
  {
    tr[o].event.UserTurnIdle? && forall k | o < k < i :: !Withdraws(tr[k].event)
  }

  lemma {:induction false} PendingHasItsIdle(ss: seq<State>, tr: seq<Moment>, i: nat)
    requires IsRun(ss, tr) && i <= |tr| && ss[i].pending.Some?
    ensures exists o | 0 <= o < i :: UnbrokenSilence(tr, o, i)
  {
    assert i > 0;
    assert Next(ss[i - 1], tr[i - 1], ss[i]);
    if tr[i - 1].event.UserTurnIdle? && ss[i - 1].clock.Remaining(tr[i - 1].at) > 0.0 {
      assert UnbrokenSilence(tr, i - 1, i);
    } else {
      AtMostOneRecheck(ss, tr, i - 1);
      PendingHasItsIdle(ss, tr, i - 1);
      var o :| 0 <= o < i - 1 && UnbrokenSilence(tr, o, i - 1);
      assert UnbrokenSilence(tr, o, i);
    }
  }

  /** A nudge goes back to an idle event with no user turn start, user turn stop or
      disconnect between the two. */
  lemma NudgeHasItsIdle(ss: seq<State>, tr: seq<Moment>, i: nat)
    requires IsRun(ss, tr) && i < |tr| && Nudged(ss, i)
    ensures exists o | 0 <= o <= i :: UnbrokenSilence(tr, o, i)
  {
    assert Next(ss[i], tr[i], ss[i + 1]);
    if tr[i].event.UserTurnIdle? {
      assert UnbrokenSilence(tr, i, i);
    } else {
      AtMostOneRecheck(ss, tr, i);
      PendingHasItsIdle(ss, tr, i);
      var o :| 0 <= o < i && UnbrokenSilence(tr, o, i);
    }
  }

  function Idles(tr: seq<Moment>): nat {
    if tr == [] then 0
    else Idles(tr[..|tr| - 1]) + (if tr[|tr| - 1].event.UserTurnIdle? then 1 else 0)
  }

  function Outstanding(s: State): nat {
    if s.pending.Some? then 1 else 0
  }

  /** No idle event is worth two nudges: over any stretch of a run, the nudges sent and
      the one still outstanding at its end are covered by the idle events in the stretch
      and the one outstanding at its start. */
  lemma {:induction false} OneNudgePerIdle(ss: seq<State>, tr: seq<Moment>, i: nat, j: nat)
    requires IsRun(ss, tr) && i <= j <= |tr|
    ensures |ss[j].sent| - |ss[i].sent| + Outstanding(ss[j]) <= Idles(tr[i..j]) + Outstanding(ss[i])
    decreases j
  {
    if i < j {
      OneNudgePerIdle(ss, tr, i, j - 1);
      IdlesOfOneMore(tr, i, j);
      AtMostOneRecheck(ss, tr, j - 1);
      NudgesAndIdlesInAStep(ss[j - 1], tr[j - 1], ss[j]);
    }
  }

  lemma IdlesOfOneMore(tr: seq<Moment>, i: nat, j: nat)
    requires i < j <= |tr|
    ensures Idles(tr[i..j]) == Idles(tr[i..j - 1]) + (if tr[j - 1].event.UserTurnIdle? then 1 else 0)
  {
    assert tr[i..j][..j - i - 1] == tr[i..j - 1];
  }

  lemma NudgesAndIdlesInAStep(s: State, m: Moment, t: State)
    requires Next(s, m, t) && OnlyPendingIsLive(s)
    ensures |t.sent| + Outstanding(t) <= |s.sent| + Outstanding(s) + (if m.event.UserTurnIdle? then 1 else 0)
  {
  }

  // --- deferrals ------------------------------------------------------------------

  /** Step c created re-check task `id`. */
  ghost predicate Creates(ss: seq<State>, c: nat, id: nat)
    requires c + 1 < |ss|
  {
    |ss[c].tasks| == id && |ss[c + 1].tasks| == id + 1
  }

  ghost predicate AudioAdded(tr: seq<Moment>, c: nat, w: nat)
    requires w <= |tr|
  {
    exists k | c < k < w :: tr[k].event.BotAudio? && tr[k].event.bytes > 0
  }

  /** While no audio is added, what was played out by `later` stays played out. */
  lemma {:induction false} SilenceStaysSilent(ss: seq<State>, tr: seq<Moment>, c: nat, i: nat, later: real)
    requires IsRun(ss, tr) && ClockForward(tr) && c < i <= |tr| && SignalOf(tr[c]).None?
    requires !AudioAdded(tr, c, i)
    requires tr[i - 1].at <= later && ss[c].clock.Remaining(later) <= 0.0
    ensures ss[i].clock.Remaining(later) <= 0.0
    decreases i
  {
    assert Next(ss[i - 1], tr[i - 1], ss[i]);
    if c + 1 < i {
      SilenceStaysSilent(ss, tr, c, i - 1, later);
      if SignalOf(tr[i - 1]).Some? {
        OnlyAudioExtendsPlayout(ss[i - 1].clock, SignalOf(tr[i - 1]).value, tr[i - 1].at, later);
      }
    }
  }

  /** The sleep ends later than the playout estimate that caused it. */
  lemma {:induction false} WakesAfterCreation(ss: seq<State>, tr: seq<Moment>, c: nat, i: nat, id: nat)
    requires IsRun(ss, tr) && ClockForward(tr) && c < i <= |tr| && Creates(ss, c, id)
    ensures id < |ss[i].tasks|
    ensures ss[i].tasks[id].Created? ==>
              ss[i].tasks[id].delay == ss[c].clock.Remaining(tr[c].at) + RECHECK_MARGIN
    ensures ss[i].tasks[id].Sleeping? ==>
              ss[i].tasks[id].wakeAt >= tr[c].at + ss[c].clock.Remaining(tr[c].at) + RECHECK_MARGIN
    decreases i
  {
    assert Next(ss[i - 1], tr[i - 1], ss[i]);
    if c + 1 < i { WakesAfterCreation(ss, tr, c, i - 1, id); }
  }

  /** A re-check that wakes up either nudges (or finds the budget spent), or bot audio
      was added after it was scheduled: a deferral never repeats on its own. */
  lemma DeferralNeedsNewAudio(ss: seq<State>, tr: seq<Moment>, c: nat, w: nat, id: nat)
    requires IsRun(ss, tr) && ClockForward(tr) && c < w < |tr| && Creates(ss, c, id) && tr[w].event == RecheckWakes(id)
    requires !AudioAdded(tr, c, w)
    ensures ss[w + 1].pending.None?
    ensures Nudged(ss, w) <==> ss[w].count < IDLE_NUDGE_MAX
  {
    assert Next(ss[w], tr[w], ss[w + 1]);
    WakesAfterCreation(ss, tr, c, w, id);
    assert Next(ss[c], tr[c], ss[c + 1]);
    SilenceStaysSilent(ss, tr, c, w, tr[w].at);
  }

  /** A deferred nudge is not lost: until the user acts, the call ends or a later idle event
      takes over, the re-check is pending, unless it has woken up with playout over. */
  lemma {:induction false} DeferredNudgeIsNotLost(ss: seq<State>, tr: seq<Moment>, o: nat, i: nat)
    requires IsRun(ss, tr) && o < i <= |tr| && tr[o].event.UserTurnIdle? && ss[o].clock.Remaining(tr[o].at) > 0.0
    requires forall k | o < k < i :: !Withdraws(tr[k].event) && !tr[k].event.UserTurnIdle?
    ensures ss[i].pending.Some? ||
            exists k | o < k < i :: tr[k].event.RecheckWakes? && ss[k].clock.Remaining(tr[k].at) <= 0.0
    decreases i
  {
    assert Next(ss[i - 1], tr[i - 1], ss[i]);
    if o + 1 < i { DeferredNudgeIsNotLost(ss, tr, o, i - 1); }
  }

  // --- what the code does not promise ---------------------------------------------

  /** What resets the user's idle timer, and the idle event itself, which it sends once. */
  predicate EndsIdleTimer(e: Event) {
    e.BotTurnStart? || e.BotTurnEnd? || e.UserTurnStarted? || e.UserTurnStopped? || e.UserTurnIdle?
  }

  /** The idle event at k comes IDLE_NUDGE_TIMEOUT after the bot stopped at b. */
  ghost predicate IdleAfterStop(tr: seq<Moment>, b: nat, k: nat)
    requires k < |tr|
  {
    && b < k && tr[b].event.BotTurnEnd? && tr[k].at - tr[b].at >= IDLE_NUDGE_TIMEOUT
    && forall m | b < m < k :: !EndsIdleTimer(tr[m].event)
  }

  /** The idle controller can have sent the idle events of this trace. */
  ghost predicate IdlesAreTimed(tr: seq<Moment>) {
    forall k | 0 <= k < |tr| && tr[k].event.UserTurnIdle? :: exists b: nat :: IdleAfterStop(tr, b, k)
  }

  /** Twenty seconds of audio, of which the bot is done sending after two; the first idle event
      defers.  Another second of audio starts a new turn, and its idle event nudges. */
  function ShortReplyAfterALongOne(): seq<Moment> {
    [Moment(BotAudio(320000), 0.0), Moment(BotTurnStart, 0.0), Moment(BotTurnEnd, 2.0), Moment(UserTurnIdle, 6.0),
     Moment(RecheckBegins(0), 6.0), Moment(BotAudio(16000), 7.0), Moment(BotTurnStart, 7.0), Moment(BotTurnEnd, 8.0),
     Moment(UserTurnIdle, 12.0), Moment(RecheckWakes(0), 20.3)]
  }

  function UntilTheDeferral(): seq<State> {
    var long := Clock(8000, 1, Some(0.0), 320000, true);
    [State(Fresh(8000, 1), 0, None, [], []), State(long, 0, None, [], []), State(long, 0, None, [], []),
     State(long.(turnActive := false), 0, None, [], []),
     State(long.(turnActive := false), 0, Some(0), [Created(14.3)], [])]
  }

  function FromTheDeferral(): seq<State> {
    var short, asleep := Clock(8000, 1, Some(7.0), 16000, true), [Sleeping(20.3)];
    [State(Clock(8000, 1, Some(0.0), 320000, false), 0, Some(0), asleep, []),
     State(short, 0, Some(0), asleep, []), State(short, 0, Some(0), asleep, []),
     State(short.(turnActive := false), 0, Some(0), asleep, []),
     State(short.(turnActive := false), 1, Some(0), asleep, [12.0]),
     State(short.(turnActive := false), 2, None, [Finished], [12.0, 20.3])]
  }

  lemma LongReplyDefers()
    ensures forall i | 0 <= i < 4 ::
              Next(UntilTheDeferral()[i], ShortReplyAfterALongOne()[i], UntilTheDeferral()[i + 1])
    ensures Next(UntilTheDeferral()[4], ShortReplyAfterALongOne()[4], FromTheDeferral()[0])
  {
  }

  lemma ShortReplyNudges()
    ensures forall i | 0 <= i < 5 ::
              Next(FromTheDeferral()[i], ShortReplyAfterALongOne()[5 + i], FromTheDeferral()[i + 1])
  {
  }

  lemma TheirIdlesAreTimed()
    ensures IdlesAreTimed(ShortReplyAfterALongOne()) && ClockForward(ShortReplyAfterALongOne())
  {
    var tr := ShortReplyAfterALongOne();
    assert IdleAfterStop(tr, 2, 3);
    assert IdleAfterStop(tr, 7, 8);
  }

  /** An idle event that finds playout over nudges without cancelling the re-check of an earlier
      idle event, which nudges again with no idle event in between. */
  lemma PendingRecheckNudgesAgain()
    ensures exists ss: seq<State> | IsRun(ss, ShortReplyAfterALongOne()) ::
              && IdlesAreTimed(ShortReplyAfterALongOne()) && ClockForward(ShortReplyAfterALongOne())
              && Nudged(ss, 8) && Nudged(ss, 9)
  {
    var ss := UntilTheDeferral() + FromTheDeferral();
    LongReplyDefers();
    ShortReplyNudges();
    TheirIdlesAreTimed();
    assert IsRun(ss, ShortReplyAfterALongOne());
    assert Nudged(ss, 8) && Nudged(ss, 9);
  }

  function SignalsSoFar(): seq<Signal> {
    [Audio(320000, 0.0), TurnStart(0.0), TurnEnd, Audio(16000, 7.0), TurnStart(7.0), TurnEnd]
  }

  lemma SignalsOfTheReplies()
    ensures Signals(ShortReplyAfterALongOne()[..8]) == SignalsSoFar()
  {
    var tr := ShortReplyAfterALongOne();
    SignalsOfOneMore(tr, 0);
    SignalsOfOneMore(tr, 1);
    SignalsOfOneMore(tr, 2);
    SignalsOfOneMore(tr, 3);
    SignalsOfOneMore(tr, 4);
    SignalsOfOneMore(tr, 5);
    SignalsOfOneMore(tr, 6);
    SignalsOfOneMore(tr, 7);
  }

  lemma SignalsOfOneMore(tr: seq<Moment>, k: nat)
    requires k < |tr|
    ensures Signals(tr[..k + 1]) == Signals(tr[..k]) + (if SignalOf(tr[k]).Some? then [SignalOf(tr[k]).value] else [])
    ensures Signals(tr[..0]) == []
  {
    assert tr[..k + 1][..k] == tr[..k];
  }

  /** The first of the two nudges, at 12.0, comes while the far end plays until 21.0: the short
      reply was anchored over the long one. */
  lemma NudgesOverTheLongReply()
    ensures var gs := Signals(ShortReplyAfterALongOne()[..8]);
            |gs| == 6 && FifoEnd(gs, 6, 8000, 1) == Some(21.0)
    ensures ShortReplyAfterALongOne()[8].at == 12.0
  {
    SignalsOfTheReplies();
    var gs := SignalsSoFar();
    assert FifoEnd(gs, 1, 8000, 1) == Some(20.0);
    assert FifoEnd(gs, 3, 8000, 1) == Some(20.0);
    assert FifoEnd(gs, 4, 8000, 1) == Some(21.0);
  }

  /** Of two nudges with no idle event between them, the first comes from an idle event that
      left a re-check pending and one nudge in the budget. */
  lemma {:induction false} TwoNudgesWithoutIdle(ss: seq<State>, tr: seq<Moment>, i: nat, j: nat)
    requires IsRun(ss, tr) && i < j < |tr| && Nudged(ss, i) && Nudged(ss, j)
    requires forall k | i < k <= j :: !tr[k].event.UserTurnIdle?
    ensures tr[i].event.UserTurnIdle? && ss[i].pending.Some? && ss[i].count + 1 < IDLE_NUDGE_MAX
  {
    NudgeNeedsPending(ss, tr, i + 1, j);
    assert Next(ss[i], tr[i], ss[i + 1]);
    forall k | i < k < j ensures !Withdraws(tr[k].event) {
      assert Next(ss[k], tr[k], ss[k + 1]);
      NudgeNeedsPending(ss, tr, k + 1, j);
    }
    BudgetHolds(ss, tr, i + 1, j);
    assert Next(ss[j], tr[j], ss[j + 1]);
  }

  /** A nudge with no idle event since step i comes from a re-check that was pending then. */
  lemma NudgeNeedsPending(ss: seq<State>, tr: seq<Moment>, i: nat, j: nat)
    requires IsRun(ss, tr) && i <= j < |tr| && Nudged(ss, j)
    requires forall k | i <= k <= j :: !tr[k].event.UserTurnIdle?
    ensures ss[i].pending.Some?
  {
    OneNudgePerIdle(ss, tr, i, j + 1);
    NoIdles(tr[i..j + 1]);
    BudgetHolds(ss, tr, i, j);
  }

  /** A run goes on from step i without idle events to another nudge at step j. */
  ghost predicate NudgesAgain(ss: seq<State>, tr: seq<Moment>, i: nat, more: seq<State>, moments: seq<Moment>, j: nat)
    requires |ss| == |tr| + 1 && i < |tr|
  {
    && IsRun(more, moments) && i < j < |moments| && Nudged(more, j)
    && moments[..i + 1] == tr[..i + 1] && more[..i + 2] == ss[..i + 2]
    && (ClockForward(tr) ==> ClockForward(moments))
    && forall k | i < k <= j :: !moments[k].event.UserTurnIdle?
  }

  function Sleep(t: Task, now: real): real
    requires Live(t)
  {
    if t.Created? then now + t.delay else t.wakeAt
  }

  /** The pending re-check goes to sleep, if it has not, and wakes up. */
  function WakeUp(s: State, now: real): seq<Moment>
    requires s.pending.Some? && s.pending.value < |s.tasks| && Live(s.tasks[s.pending.value])
  {
    var id := s.pending.value;
    var wakeAt := Sleep(s.tasks[id], now);
    (if s.tasks[id].Created? then [Moment(RecheckBegins(id), now)] else [])
    + [Moment(RecheckWakes(id), if wakeAt < now then now else wakeAt)]
  }

  function StatesOf(s: State, ms: seq<Moment>): seq<State>
    requires |ms| >= 1 && Enabled(s, ms[0]) && (|ms| == 1 || (|ms| == 2 && Enabled(Step(s, ms[0]), ms[1])))
  {
    if |ms| == 1 then [Step(s, ms[0])] else [Step(s, ms[0]), Step(Step(s, ms[0]), ms[1])]
  }

  lemma WakeUpNudges(s: State, now: real)
    requires OnlyPendingIsLive(s) && s.pending.Some? && s.count < IDLE_NUDGE_MAX && s.clock.Remaining(now) <= 0.0
    ensures var ms := WakeUp(s, now);
            && Enabled(s, ms[0]) && (|ms| == 1 || (|ms| == 2 && Enabled(Step(s, ms[0]), ms[1])))
            && (|ms| == 2 ==> Step(s, ms[0]).sent == s.sent)
            && |StatesOf(s, ms)[|ms| - 1].sent| > |s.sent|
            && forall k | 0 <= k < |ms| :: ms[k].at >= now && !ms[k].event.UserTurnIdle?
    ensures |WakeUp(s, now)| == 2 ==> WakeUp(s, now)[0].at <= WakeUp(s, now)[1].at
  {
  }

  lemma RunGoesOn(ss: seq<State>, tr: seq<Moment>, i: nat, ms: seq<Moment>)
    requires IsRun(ss, tr) && i < |tr|
    requires |ms| >= 1 && Enabled(ss[i + 1], ms[0])
    requires |ms| == 1 || (|ms| == 2 && Enabled(Step(ss[i + 1], ms[0]), ms[1]))
    ensures IsRun(ss[..i + 2] + StatesOf(ss[i + 1], ms), tr[..i + 1] + ms)
  {
    var more, moments := ss[..i + 2] + StatesOf(ss[i + 1], ms), tr[..i + 1] + ms;
    forall k | 0 <= k < |moments| ensures Next(more[k], moments[k], more[k + 1]) {
      if k <= i { assert Next(ss[k], tr[k], ss[k + 1]); }
    }
  }

  /** A nudge can be followed by another one with no idle event between exactly when it comes
      from an idle event that leaves a re-check pending and a nudge in the budget. */
  lemma SecondNudgeExactlyWhen(ss: seq<State>, tr: seq<Moment>, i: nat)
    requires IsRun(ss, tr) && i < |tr| && Nudged(ss, i)
    ensures (exists more, moments, j: nat :: NudgesAgain(ss, tr, i, more, moments, j)) <==>
            tr[i].event.UserTurnIdle? && ss[i].pending.Some? && ss[i].count + 1 < IDLE_NUDGE_MAX
  {
    if more, moments, j: nat :| NudgesAgain(ss, tr, i, more, moments, j) {
      SecondNudgeHasACause(ss, tr, i, more, moments, j);
    }
    if tr[i].event.UserTurnIdle? && ss[i].pending.Some? && ss[i].count + 1 < IDLE_NUDGE_MAX {
      var more, moments, j := SecondNudgeFollows(ss, tr, i);
    }
  }

  lemma SecondNudgeHasACause(ss: seq<State>, tr: seq<Moment>, i: nat, more: seq<State>, moments: seq<Moment>, j: nat)
    requires IsRun(ss, tr) && i < |tr| && Nudged(ss, i) && NudgesAgain(ss, tr, i, more, moments, j)
    ensures tr[i].event.UserTurnIdle? && ss[i].pending.Some? && ss[i].count + 1 < IDLE_NUDGE_MAX
  {
    assert more[..i + 2][i] == ss[i] && more[..i + 2][i + 1] == ss[i + 1] && moments[..i + 1][i] == tr[i];
    TwoNudgesWithoutIdle(more, moments, i, j);
  }

  lemma SecondNudgeFollows(ss: seq<State>, tr: seq<Moment>, i: nat)
      returns (more: seq<State>, moments: seq<Moment>, j: nat)
    requires IsRun(ss, tr) && i < |tr| && Nudged(ss, i)
    requires tr[i].event.UserTurnIdle? && ss[i].pending.Some? && ss[i].count + 1 < IDLE_NUDGE_MAX
    ensures NudgesAgain(ss, tr, i, more, moments, j)
  {
    var s, now := ss[i + 1], tr[i].at;
    assert Next(ss[i], tr[i], s);
    AtMostOneRecheck(ss, tr, i + 1);
    WakeUpNudges(s, now);
    var ms := WakeUp(s, now);
    RunGoesOn(ss, tr, i, ms);
    more, moments, j := ss[..i + 2] + StatesOf(s, ms), tr[..i + 1] + ms, i + |ms|;
  }

  lemma {:induction false} NoIdles(tr: seq<Moment>)
    requires forall k | 0 <= k < |tr| :: !tr[k].event.UserTurnIdle?
    ensures Idles(tr) == 0
  {
    if tr != [] { NoIdles(tr[..|tr| - 1]); }
  }

  // --- the closures themselves ------------------------------------------------------

  /** The handlers and the re-check coroutine, over the closure's own variables. */
  class Nudger {
    const playout: BotPlayoutTracker
    var idleNudgeCount: nat
    var pendingRecheck: Option<nat>
    var tasks: seq<Task>
    var sent: seq<real>

    function View(): State
      reads this, playout
    {
      State(playout.View(), idleNudgeCount, pendingRecheck, tasks, sent)
    }

    constructor (playout: BotPlayoutTracker)
      requires playout.View() == Fresh(playout.rate, playout.channels)
      ensures Initial(View()) && this.playout == playout
    {
      this.playout := playout;
      idleNudgeCount, pendingRecheck, tasks, sent := 0, None, [], [];
    }

    method CancelPendingRecheck()
      modifies this
      ensures View() == CancelPending(old(View()))
    {
      if pendingRecheck.Some? && pendingRecheck.value < |tasks| && !tasks[pendingRecheck.value].Finished? {
        tasks := tasks[pendingRecheck.value := Cancelled];
      }
      pendingRecheck := None;
    }

    method CreateRecheck(delay: real)
      modifies this
      ensures View() == old(View()).(tasks := old(tasks) + [Created(delay)], pending := Some(|old(tasks)|))
    {
      tasks := tasks + [Created(delay)];
      pendingRecheck := Some(|tasks| - 1);
    }

    method DoNudge(now: real)
      modifies this
      ensures View() == old(View()).(count := old(idleNudgeCount) + 1, sent := old(sent) + [now])
    {
      idleNudgeCount := idleNudgeCount + 1;
      sent := sent + [now];
    }

    method OnUserTurnStarted(now: real)
      modifies this
      ensures View() == Step(old(View()), Moment(UserTurnStarted, now))
    {
      CancelPendingRecheck();
    }

    method OnUserTurnStopped(now: real)
      modifies this
      ensures View() == Step(old(View()), Moment(UserTurnStopped, now))
    {
      idleNudgeCount := 0;
      CancelPendingRecheck();
    }

    method OnDisconnected(now: real)
      modifies this
      ensures View() == Step(old(View()), Moment(Disconnected, now))
    {
      CancelPendingRecheck();
    }

    method OnUserTurnIdle(now: real)
      modifies this
      ensures View() == Step(old(View()), Moment(UserTurnIdle, now))
    {
      var remaining := playout.View().Remaining(now);
      if remaining > 0.0 {
        CancelPendingRecheck();
        CreateRecheck(remaining + RECHECK_MARGIN);
        return;
      }
      if idleNudgeCount >= IDLE_NUDGE_MAX {
        return;
      }
      DoNudge(now);
    }

    method RecheckSleeps(id: nat, now: real)
      requires Enabled(View(), Moment(RecheckBegins(id), now))
      modifies this
      ensures View() == Step(old(View()), Moment(RecheckBegins(id), now))
    {
      tasks := tasks[id := Sleeping(now + tasks[id].delay)];
    }

    method RecheckAfterPlayout(id: nat, now: real)
      requires Enabled(View(), Moment(RecheckWakes(id), now))
      modifies this
      ensures View() == Step(old(View()), Moment(RecheckWakes(id), now))
    {
      tasks := tasks[id := Finished];
      pendingRecheck := None;
      var remaining := playout.View().Remaining(now);
      if remaining > 0.0 {
        CreateRecheck(remaining + RECHECK_MARGIN);
        return;
      }
      if idleNudgeCount >= IDLE_NUDGE_MAX {
        return;
      }
      DoNudge(now);
    }
  }
}
