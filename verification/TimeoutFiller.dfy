/**
 The timeout filler (timeout_filler.py, class TimeoutFillerObserver): when the user stops
 speaking a timer is armed, and unless the reply starts first the bot may say a filler.

 The observer does not tell crossings of one frame apart, so an arm or cancel frame acts
 again at each of its crossings.  Each stretch between two awaits is one atomic step; a run
 is any interleaving of them.
 */
module TimeoutFiller {
  import opened Wrappers
  import opened AsyncTasks
  import opened Frames

  datatype Event =
    | Push(kind: Kind)                  // a frame crosses a processor boundary
    | TimerBegins(id: nat)              // the coroutine runs up to its sleep
    | TimerFires(id: nat, speaks: bool) // it runs on; `speaks`: the draw is below the probability,
                                        // a task is set and the filler text is not empty
    | TimerEnds(id: nat)                // it returns, or unwinds after a cancel, through `finally`

  datatype Moment = Moment(event: Event, at: real)

  datatype Injection = Injection(timer: nat, at: real)

  /** `injected` is what went into the pipeline's queue. */
  datatype State = State(pending: Option<nat>, tasks: seq<Task>, injected: seq<Injection>)

  datatype Config = Config(enabled: bool, timeout: real)

  predicate Arms(k: Kind) {
    k.UserStopped? || k.VadUserStopped?
  }

  predicate Cancels(k: Kind) {
    k.TtsStarted? || k.BotStarted? || k.UserStarted? || k.VadUserStarted?
  }

  function CancelPending(s: State): State {
    s.(tasks := Cancel(s.tasks, s.pending), pending := None)
  }

  function Arm(s: State, timeout: real): State {
    var c := CancelPending(s);
    c.(tasks := c.tasks + [Created(timeout)], pending := Some(|c.tasks|))
  }

  /** The `finally` clause: only the timer's own reference is cleared. */
  function CleanUp(s: State, id: nat): State
    requires id < |s.tasks|
  {
    State(if s.pending == Some(id) then None else s.pending, s.tasks[id := Finished], s.injected)
  }

  predicate Enabled(s: State, m: Moment) {
    match m.event
    case Push(_) => true
    case TimerBegins(id) => id < |s.tasks| && s.tasks[id].Created?
    case TimerFires(id, _) => id < |s.tasks| && s.tasks[id].Sleeping? && s.tasks[id].wakeAt <= m.at
    case TimerEnds(id) => id < |s.tasks| && (s.tasks[id].Resumed? || s.tasks[id].Cancelled?)
  }

  function Step(cfg: Config, s: State, m: Moment): State
    requires Enabled(s, m)
  {
    match m.event
    case Push(k) =>
      if !cfg.enabled then s
      else if Arms(k) then Arm(s, cfg.timeout)
      else if Cancels(k) then CancelPending(s)
      else s
    case TimerBegins(id) => s.(tasks := s.tasks[id := Sleeping(m.at + s.tasks[id].delay)])
    case TimerFires(id, speaks) =>
      if speaks then s.(tasks := s.tasks[id := Resumed], injected := s.injected + [Injection(id, m.at)])
      else CleanUp(s, id)
    case TimerEnds(id) => CleanUp(s, id)
  }

  predicate Next(cfg: Config, s: State, m: Moment, t: State) {
    Enabled(s, m) && t == Step(cfg, s, m)
  }

  /** ss[i] is the state before step tr[i]. */
  ghost predicate IsRun(cfg: Config, ss: seq<State>, tr: seq<Moment>) {
    && |ss| == |tr| + 1
    && ss[0] == State(None, [], [])
    && forall i | 0 <= i < |tr| :: Next(cfg, ss[i], tr[i], ss[i + 1])
  }

  ghost predicate ClockForward(tr: seq<Moment>) {
    forall i, j | 0 <= i <= j < |tr| :: tr[i].at <= tr[j].at
  }

  predicate ArmFrame(e: Event) {
    e.Push? && Arms(e.kind)
  }

  predicate CancelFrame(e: Event) {
    e.Push? && Cancels(e.kind)
  }

  // --- one timer -----------------------------------------------------------------

  /** The reference is to a timer that has not ended, and any timer that can still fire is
      the one referred to. */
  ghost predicate OnlyPendingCanFire(s: State) {
    && (s.pending.Some? ==> s.pending.value < |s.tasks|
                            && (Live(s.tasks[s.pending.value]) || s.tasks[s.pending.value].Resumed?))
    && forall k | 0 <= k < |s.tasks| && Live(s.tasks[k]) :: s.pending == Some(k)
  }

  lemma {:induction false} AtMostOneTimer(cfg: Config, ss: seq<State>, tr: seq<Moment>, i: nat)
    requires IsRun(cfg, ss, tr) && i <= |tr|
    ensures OnlyPendingCanFire(ss[i])
  {
    if i > 0 {
      AtMostOneTimer(cfg, ss, tr, i - 1);
      assert Next(cfg, ss[i - 1], tr[i - 1], ss[i]);
    }
  }

  /** Step a created timer `id`. */
  ghost predicate ArmsTimer(ss: seq<State>, a: nat, id: nat)
    requires a + 1 < |ss|
  {
    |ss[a].tasks| == id && |ss[a + 1].tasks| == id + 1
  }

  /** Neither an arm frame nor a cancel frame crosses strictly between a and i. */
  ghost predicate Quiet(tr: seq<Moment>, a: nat, i: nat)
    requires i <= |tr|
  {
    forall k | a < k < i :: !ArmFrame(tr[k].event) && !CancelFrame(tr[k].event)
  }

  /** Since the last arm frame the reference is to its timer until that timer ends: no
      clean-up of an older timer, however late, clears it. */
  lemma {:induction false} CleanUpSparesTheNewerTimer(cfg: Config, ss: seq<State>, tr: seq<Moment>, a: nat, i: nat, id: nat)
    requires IsRun(cfg, ss, tr) && a < i <= |tr| && ArmsTimer(ss, a, id) && Quiet(tr, a, i)
    ensures id < |ss[i].tasks|
    ensures ss[i].pending == if ss[i].tasks[id].Finished? then None else Some(id)
    decreases i
  {
    assert Next(cfg, ss[i - 1], tr[i - 1], ss[i]);
    if a + 1 < i {
      CleanUpSparesTheNewerTimer(cfg, ss, tr, a, i - 1, id);
      AtMostOneTimer(cfg, ss, tr, i - 1);
    }
  }

  /** A timer that can still fire was armed by a frame after which nothing armed or
      cancelled, and does not wake before the timeout is over. */
  lemma {:induction false} LiveTimerHasItsArm(cfg: Config, ss: seq<State>, tr: seq<Moment>, i: nat, id: nat) returns (a: nat)
    requires IsRun(cfg, ss, tr) && ClockForward(tr) && i <= |tr|
    requires id < |ss[i].tasks| && Live(ss[i].tasks[id])
    ensures a < i && cfg.enabled && ArmFrame(tr[a].event) && ArmsTimer(ss, a, id) && Quiet(tr, a, i)
    ensures ss[i].tasks[id].Created? ==> ss[i].tasks[id].delay == cfg.timeout
    ensures ss[i].tasks[id].Sleeping? ==> ss[i].tasks[id].wakeAt >= tr[a].at + cfg.timeout
  {
    assert Next(cfg, ss[i - 1], tr[i - 1], ss[i]);
    AtMostOneTimer(cfg, ss, tr, i);
    if id < |ss[i - 1].tasks| {
      a := LiveTimerHasItsArm(cfg, ss, tr, i - 1, id);
      AtMostOneTimer(cfg, ss, tr, i - 1);
    } else {
      a := i - 1;
    }
  }

  ghost predicate InjectsAt(ss: seq<State>, j: nat)
    requires j + 1 < |ss|
  {
    |ss[j + 1].injected| > |ss[j].injected|
  }

  /** Every filler belongs to an arm frame at least the timeout earlier, with no arm and no
      cancel frame in between. */
  lemma FillerHasItsArm(cfg: Config, ss: seq<State>, tr: seq<Moment>, j: nat)
    requires IsRun(cfg, ss, tr) && ClockForward(tr) && j < |tr| && InjectsAt(ss, j)
    ensures cfg.enabled
    ensures exists a | 0 <= a < j ::
              ArmFrame(tr[a].event) && Quiet(tr, a, j) && tr[j].at >= tr[a].at + cfg.timeout
  {
    assert Next(cfg, ss[j], tr[j], ss[j + 1]);
    var a := LiveTimerHasItsArm(cfg, ss, tr, j, tr[j].event.id);
    assert ArmFrame(tr[a].event);
  }

  /** An armed timer that no arm and no cancel frame follows is never cancelled: it can still
      fire, or it has fired. */
  lemma {:induction false} UndisturbedTimerFires(cfg: Config, ss: seq<State>, tr: seq<Moment>, a: nat, i: nat, id: nat)
    requires IsRun(cfg, ss, tr) && a < i <= |tr| && ArmsTimer(ss, a, id) && Quiet(tr, a, i)
    ensures id < |ss[i].tasks|
    ensures Live(ss[i].tasks[id]) || exists k | a < k < i :: tr[k].event.TimerFires? && tr[k].event.id == id
    decreases i
  {
    assert Next(cfg, ss[i - 1], tr[i - 1], ss[i]);
    if a + 1 < i { UndisturbedTimerFires(cfg, ss, tr, a, i - 1, id); }
  }

  function FillersOf(injected: seq<Injection>, id: nat): nat {
    if injected == [] then 0
    else FillersOf(injected[..|injected| - 1], id) + (if injected[|injected| - 1].timer == id then 1 else 0)
  }

  lemma FillersOfOneMore(injected: seq<Injection>, x: Injection, id: nat)
    ensures FillersOf(injected + [x], id) == FillersOf(injected, id) + (if x.timer == id then 1 else 0)
  {
    assert (injected + [x])[..|injected|] == injected;
  }

  /** Every filler is some timer's. */
  ghost predicate FillersHaveTimers(s: State) {
    forall k | 0 <= k < |s.injected| :: s.injected[k].timer < |s.tasks|
  }

  lemma {:induction false} NoFillers(injected: seq<Injection>, id: nat)
    requires forall k | 0 <= k < |injected| :: injected[k].timer < id
    ensures FillersOf(injected, id) == 0
  {
    if injected != [] { NoFillers(injected[..|injected| - 1], id); }
  }

  lemma {:induction false} FillersHaveTimersAlways(cfg: Config, ss: seq<State>, tr: seq<Moment>, i: nat)
    requires IsRun(cfg, ss, tr) && i <= |tr|
    ensures FillersHaveTimers(ss[i])
  {
    if i > 0 {
      FillersHaveTimersAlways(cfg, ss, tr, i - 1);
      assert Next(cfg, ss[i - 1], tr[i - 1], ss[i]);
    }
  }

  lemma {:induction false} TasksGrow(cfg: Config, ss: seq<State>, tr: seq<Moment>, i: nat, j: nat)
    requires IsRun(cfg, ss, tr) && i <= j <= |tr|
    ensures |ss[i].tasks| <= |ss[j].tasks|
    decreases j
  {
    if i < j {
      TasksGrow(cfg, ss, tr, i, j - 1);
      assert Next(cfg, ss[j - 1], tr[j - 1], ss[j]);
    }
  }

  /** The timer fires at step w and speaks. */
  ghost predicate SpeaksAt(tr: seq<Moment>, w: nat, id: nat) {
    w < |tr| && tr[w].event == TimerFires(id, true)
  }

  lemma FillersInAStep(cfg: Config, s: State, m: Moment, t: State, id: nat)
    requires Next(cfg, s, m, t) && id < |s.tasks|
    ensures id < |t.tasks| && (Live(t.tasks[id]) ==> Live(s.tasks[id]))
    ensures FillersOf(t.injected, id) == FillersOf(s.injected, id) + (if m.event == TimerFires(id, true) then 1 else 0)
    ensures m.event == TimerFires(id, true) ==> Live(s.tasks[id]) && !Live(t.tasks[id])
  {
    if m.event.TimerFires? && m.event.speaks {
      FillersOfOneMore(s.injected, Injection(m.event.id, m.at), id);
    }
  }

  /** A timer's fillers are counted by the step at which it spoke, and it speaks once. */
  lemma {:induction false} FillersOfATimer(cfg: Config, ss: seq<State>, tr: seq<Moment>, a: nat, i: nat, id: nat)
    requires IsRun(cfg, ss, tr) && a < i <= |tr| && ArmsTimer(ss, a, id)
    ensures id < |ss[i].tasks| && FillersOf(ss[i].injected, id) <= 1
    ensures FillersOf(ss[i].injected, id) == 1 ==> !Live(ss[i].tasks[id])
    ensures FillersOf(ss[i].injected, id) == 1 <==> exists w: nat | a < w < i :: SpeaksAt(tr, w, id)
    decreases i
  {
    if a + 1 < i {
      FillersOfATimer(cfg, ss, tr, a, i - 1, id);
      FillersInAStep(cfg, ss[i - 1], tr[i - 1], ss[i], id);
      if tr[i - 1].event == TimerFires(id, true) { assert SpeaksAt(tr, i - 1, id); }
    } else {
      assert Next(cfg, ss[a], tr[a], ss[i]);
      FillersHaveTimersAlways(cfg, ss, tr, a);
      NoFillers(ss[i].injected, id);
    }
  }

  /** A timer armed by the frame at a gets a filler, and then one only, exactly when it fires
      and chance and phrases allow it, at least the timeout after that frame and with no arm
      and no cancel frame in between. */
  lemma FillerExactlyWhen(cfg: Config, ss: seq<State>, tr: seq<Moment>, a: nat, i: nat, id: nat)
    requires IsRun(cfg, ss, tr) && ClockForward(tr) && a < i <= |tr| && ArmsTimer(ss, a, id)
    ensures FillersOf(ss[i].injected, id) ==
            if exists w: nat | a < w < i :: SpeaksAt(tr, w, id) && Quiet(tr, a, w) && tr[w].at >= tr[a].at + cfg.timeout
            then 1 else 0
  {
    FillersOfATimer(cfg, ss, tr, a, i, id);
    forall w: nat | a < w < i && SpeaksAt(tr, w, id)
      ensures Quiet(tr, a, w) && tr[w].at >= tr[a].at + cfg.timeout
    {
      assert Next(cfg, ss[w], tr[w], ss[w + 1]);
      var b := LiveTimerHasItsArm(cfg, ss, tr, w, id);
      if a < b { TasksGrow(cfg, ss, tr, a + 1, b); }
      if b < a { TasksGrow(cfg, ss, tr, b + 1, a); }
    }
  }

  /** There are no other fillers: each belongs to a timer that an arm frame armed. */
  lemma {:induction false} FillerHasItsTimer(cfg: Config, ss: seq<State>, tr: seq<Moment>, i: nat, k: nat) returns (a: nat)
    requires IsRun(cfg, ss, tr) && i <= |tr| && k < |ss[i].injected|
    ensures a < i && ArmsTimer(ss, a, ss[i].injected[k].timer) && ArmFrame(tr[a].event)
  {
    FillersHaveTimersAlways(cfg, ss, tr, i);
    a := TimerHasItsArm(cfg, ss, tr, i, ss[i].injected[k].timer);
  }

  lemma {:induction false} TimerHasItsArm(cfg: Config, ss: seq<State>, tr: seq<Moment>, i: nat, id: nat) returns (a: nat)
    requires IsRun(cfg, ss, tr) && i <= |tr| && id < |ss[i].tasks|
    ensures a < i && ArmsTimer(ss, a, id) && ArmFrame(tr[a].event)
  {
    assert Next(cfg, ss[i - 1], tr[i - 1], ss[i]);
    if id < |ss[i - 1].tasks| {
      a := TimerHasItsArm(cfg, ss, tr, i - 1, id);
    } else {
      a := i - 1;
    }
  }

  // --- the frames themselves ----------------------------------------------------------

  /** The user stops speaking. */
  predicate IsStop(e: Event) {
    e == Push(UserStopped) || e == Push(VadUserStopped)
  }

  /** The reply begins or the user cuts in. */
  predicate IsStart(e: Event) {
    e == Push(TtsStarted) || e == Push(BotStarted) || e == Push(UserStarted) || e == Push(VadUserStarted)
  }

  lemma FramesThatAct(e: Event)
    ensures ArmFrame(e) <==> IsStop(e)
    ensures CancelFrame(e) <==> IsStart(e)
  {
  }

  /** Between a filler and the stop frame it answers, at least the timeout earlier, the user has
      neither stopped again nor started and no reply has begun. */
  lemma FillerAnswersAStop(cfg: Config, ss: seq<State>, tr: seq<Moment>, j: nat)
    requires IsRun(cfg, ss, tr) && ClockForward(tr) && j < |tr| && InjectsAt(ss, j)
    ensures exists a | 0 <= a < j ::
              && IsStop(tr[a].event) && tr[j].at >= tr[a].at + cfg.timeout
              && forall k | a < k < j :: !IsStop(tr[k].event) && !IsStart(tr[k].event)
  {
    FillerHasItsArm(cfg, ss, tr, j);
    var a :| 0 <= a < j && ArmFrame(tr[a].event) && Quiet(tr, a, j) && tr[j].at >= tr[a].at + cfg.timeout;
    forall k | a <= k < j ensures ArmFrame(tr[k].event) <==> IsStop(tr[k].event) { FramesThatAct(tr[k].event); }
    forall k | a < k < j ensures !IsStop(tr[k].event) && !IsStart(tr[k].event) { FramesThatAct(tr[k].event); }
    assert IsStop(tr[a].event);
  }

  ghost predicate NoneCanFire(s: State) {
    forall k | 0 <= k < |s.tasks| :: !Live(s.tasks[k])
  }

  lemma StartSilences(cfg: Config, s: State, m: Moment)
    requires cfg.enabled && OnlyPendingCanFire(s) && IsStart(m.event)
    ensures NoneCanFire(Step(cfg, s, m)) && Step(cfg, s, m).injected == s.injected
  {
    FramesThatAct(m.event);
  }

  lemma StaysSilent(cfg: Config, s: State, m: Moment)
    requires Enabled(s, m) && NoneCanFire(s) && !IsStop(m.event)
    ensures NoneCanFire(Step(cfg, s, m)) && Step(cfg, s, m).injected == s.injected
  {
    FramesThatAct(m.event);
  }

  /** Once the reply has begun or the user has cut in, no timer is left that could fire, and none
      speaks, until the user stops speaking again. */
  lemma {:induction false} SilentAfterAStart(cfg: Config, ss: seq<State>, tr: seq<Moment>, c: nat, j: nat)
    requires IsRun(cfg, ss, tr) && cfg.enabled && c < j <= |tr| && IsStart(tr[c].event)
    requires forall k | c < k < j :: !IsStop(tr[k].event)
    ensures NoneCanFire(ss[j]) && ss[j].injected == ss[c].injected
    decreases j
  {
    assert Next(cfg, ss[j - 1], tr[j - 1], ss[j]);
    if c == j - 1 {
      AtMostOneTimer(cfg, ss, tr, c);
      StartSilences(cfg, ss[c], tr[c]);
    } else {
      SilentAfterAStart(cfg, ss, tr, c, j - 1);
      StaysSilent(cfg, ss[j - 1], tr[j - 1]);
    }
  }

  /** A stop frame leaves one timer that can fire, a new one with the whole timeout ahead of it. */
  lemma StopStartsATimer(cfg: Config, s: State, m: Moment)
    requires cfg.enabled && OnlyPendingCanFire(s) && IsStop(m.event)
    ensures var t, id := Step(cfg, s, m), |s.tasks|;
            && |t.tasks| == id + 1 && t.tasks[id] == Created(cfg.timeout) && t.pending == Some(id)
            && (forall k | 0 <= k < id :: !Live(t.tasks[k])) && t.injected == s.injected
  {
    FramesThatAct(m.event);
  }

  /** Every other frame, and every frame while the observer is off, leaves all as it is. */
  lemma OtherFramesDoNothing(cfg: Config, s: State, m: Moment)
    requires m.event.Push? && (!cfg.enabled || (!IsStop(m.event) && !IsStart(m.event)))
    ensures Step(cfg, s, m) == s
  {
    FramesThatAct(m.event);
  }

  // --- one filler for one arm ---------------------------------------------------------

  function ArmsIn(tr: seq<Moment>): nat {
    if tr == [] then 0
    else ArmsIn(tr[..|tr| - 1]) + (if ArmFrame(tr[|tr| - 1].event) then 1 else 0)
  }

  function CanFire(s: State): nat {
    if s.pending.Some? && s.pending.value < |s.tasks| && Live(s.tasks[s.pending.value]) then 1 else 0
  }

  lemma FillersAndArmsInAStep(cfg: Config, s: State, m: Moment)
    requires Enabled(s, m) && OnlyPendingCanFire(s)
    ensures |Step(cfg, s, m).injected| + CanFire(Step(cfg, s, m))
            <= |s.injected| + CanFire(s) + (if ArmFrame(m.event) then 1 else 0)
  {
  }

  /** Over any stretch of a run, the fillers spoken and the timer still running at its end
      are covered by the arm frames in it and the timer running at its start. */
  lemma {:induction false} OneFillerPerArm(cfg: Config, ss: seq<State>, tr: seq<Moment>, i: nat, j: nat)
    requires IsRun(cfg, ss, tr) && i <= j <= |tr|
    ensures |ss[j].injected| - |ss[i].injected| + CanFire(ss[j]) <= ArmsIn(tr[i..j]) + CanFire(ss[i])
    decreases j
  {
    if i < j {
      OneFillerPerArm(cfg, ss, tr, i, j - 1);
      assert tr[i..j][..j - i - 1] == tr[i..j - 1];
      AtMostOneTimer(cfg, ss, tr, j - 1);
      assert Next(cfg, ss[j - 1], tr[j - 1], ss[j]);
      FillersAndArmsInAStep(cfg, ss[j - 1], tr[j - 1]);
    }
  }

  // --- the observer --------------------------------------------------------------------

  class Observer {
    const enabled: bool
    const timeout: real
    var pending: Option<nat>
    var tasks: seq<Task>
    var injected: seq<Injection>

    function View(): State
      reads this
    {
      State(pending, tasks, injected)
    }

    function Cfg(): Config {
      Config(enabled, timeout)
    }

    constructor (enabled: bool, timeout: real)
      ensures View() == State(None, [], []) && Cfg() == Config(enabled, timeout)
    {
      this.enabled, this.timeout := enabled, timeout;
      pending, tasks, injected := None, [], [];
    }

    method CancelTimer()
      modifies this
      ensures View() == CancelPending(old(View()))
    {
      if pending.Some? && pending.value < |tasks| && !tasks[pending.value].Finished? {
        tasks := tasks[pending.value := Cancelled];
      }
      pending := None;
    }

    method ArmTimer()
      modifies this
      ensures View() == Arm(old(View()), timeout)
    {
      CancelTimer();
      tasks := tasks + [Created(timeout)];
      pending := Some(|tasks| - 1);
    }

    method OnPushFrame(k: Kind, now: real)
      modifies this
      ensures View() == Step(Cfg(), old(View()), Moment(Push(k), now))
    {
      if !enabled { return; }
      if Arms(k) {
        ArmTimer();
      } else if Cancels(k) {
        CancelTimer();
      }
    }

    method FireSleeps(me: nat, now: real)
      requires Enabled(View(), Moment(TimerBegins(me), now))
      modifies this
      ensures View() == Step(Cfg(), old(View()), Moment(TimerBegins(me), now))
    {
      tasks := tasks[me := Sleeping(now + tasks[me].delay)];
    }

    method Finally(me: nat)
      requires me < |tasks|
      modifies this
      ensures View() == CleanUp(old(View()), me)
    {
      if pending == Some(me) {
        pending := None;
      }
      tasks := tasks[me := Finished];
    }

    method Fire(me: nat, speaks: bool, now: real)
      requires Enabled(View(), Moment(TimerFires(me, speaks), now))
      modifies this
      ensures View() == Step(Cfg(), old(View()), Moment(TimerFires(me, speaks), now))
    {
      if speaks {
        injected := injected + [Injection(me, now)];
        tasks := tasks[me := Resumed];
        return;
      }
      Finally(me);
    }
  }
}
