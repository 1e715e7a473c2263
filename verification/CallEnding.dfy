/**
 Ending a call (call_control_tools.py, the handlers and _grace_then_end; bot.py,
 HistoryRecorder.write_outcome_row and flush_turns_and_summarize).

 The model may invoke end_call and transfer_to_human any number of times, the session may end
 at any moment, once, and the table writes run in threads.  Each stretch between two awaits is
 one atomic step; so is the moment at which a write takes effect in the table.
 */
module CallEnding {
  import opened Wrappers

  datatype Tool = EndCall | Transfer

  datatype Invocation =
    | Declined                // "already_ending"
    | Emitting(tool: Tool)    // won, and awaits the emit of the tool event
    | Handled(tool: Tool)     // won, and has created the grace task
    | Dropped(tool: Tool)     // won, and was cancelled while emitting

  datatype Owner = ByGrace(g: nat) | ByFlush(f: nat)

  /** A put of the outcome row: what it writes, whether it took effect, what it returned. */
  datatype Write = Write(owner: Owner, transfer: bool, applied: bool, result: Option<bool>)

  datatype Grace = Sleeping | Writing(w: nat) | Ended(write: Option<nat>)

  datatype Flush = AwaitingWrite(w: nat) | Updating | Over

  datatype Meta = Meta(transferRequested: bool, outcomeWritten: bool)

  /** The row of the call: its transfer_requested if an outcome was put, and its turns. */
  datatype Row = Row(transferRequested: Option<bool>, hasTurns: bool)

  datatype State = State(ending: bool, invocations: seq<Invocation>, graces: seq<Grace>,
                         writes: seq<Write>, flushes: seq<Flush>,
                         meta: Option<Meta>, row: Option<Row>, endFrames: nat)

  /** Which callbacks the session passed: mark_transfer and write_outcome (phone: both). */
  datatype Wiring = Wiring(marks: bool, writes: bool)

  datatype Event =
    | Invoked(tool: Tool)
    | EmitReturns(i: nat)
    | InvocationCancelled(i: nat)
    | GraceOver(g: nat)
    | HangUp                          // the session is over: flush_turns_and_summarize starts
    | PutTakesEffect(w: nat)
    | WriteReturns(w: nat, ok: bool)
    | UpdateReturns(f: nat, ok: bool)

  // --- atomic steps --------------------------------------------------------------------

  /** write_outcome_row up to its await: None when it returns without touching the table. */
  function StartWrite(s: State, owner: Owner): (State, Option<nat>) {
    if s.meta.None? || s.meta.value.outcomeWritten then (s, None)
    else (s.(writes := s.writes + [Write(owner, s.meta.value.transferRequested, false, None)]), Some(|s.writes|))
  }

  function QueueEnd(s: State, g: nat, write: Option<nat>): State
    requires g < |s.graces|
  {
    s.(graces := s.graces[g := Ended(write)], endFrames := s.endFrames + 1)
  }

  /** flush_turns_and_summarize from the end of its write on. */
  function PopMeta(s: State, f: nat): State
    requires f < |s.flushes|
  {
    s.(flushes := s.flushes[f := if s.meta.None? then Over else Updating], meta := None)
  }

  predicate Enabled(s: State, e: Event) {
    match e
    case Invoked(_) => true
    case EmitReturns(i) => i < |s.invocations| && s.invocations[i].Emitting?
    case InvocationCancelled(i) => i < |s.invocations| && s.invocations[i].Emitting?
    case GraceOver(g) => g < |s.graces| && s.graces[g].Sleeping?
    case HangUp => s.flushes == []
    case PutTakesEffect(w) => w < |s.writes| && !s.writes[w].applied && s.writes[w].result.None?
    case WriteReturns(w, ok) =>
      && w < |s.writes| && s.writes[w].result.None? && (ok ==> s.writes[w].applied)
      && (match s.writes[w].owner case ByGrace(g) => g < |s.graces| case ByFlush(f) => f < |s.flushes|)
    case UpdateReturns(f, _) => f < |s.flushes| && s.flushes[f].Updating?
  }

  function Step(cfg: Wiring, s: State, e: Event): State
    requires Enabled(s, e)
  {
    match e
    case Invoked(tool) =>
      if s.ending then s.(invocations := s.invocations + [Declined])
      else s.(ending := true, invocations := s.invocations + [Emitting(tool)],
              meta := if tool.Transfer? && cfg.marks && s.meta.Some?
                      then Some(s.meta.value.(transferRequested := true)) else s.meta)
    case EmitReturns(i) =>
      s.(invocations := s.invocations[i := Handled(s.invocations[i].tool)], graces := s.graces + [Sleeping])
    case InvocationCancelled(i) => s.(invocations := s.invocations[i := Dropped(s.invocations[i].tool)])
    case GraceOver(g) =>
      if !cfg.writes then QueueEnd(s, g, None)
      else
        var (t, w) := StartWrite(s, ByGrace(g));
        if w.None? then QueueEnd(t, g, None) else t.(graces := t.graces[g := Writing(w.value)])
    case HangUp =>
      var f := |s.flushes|;
      var (t, w) := StartWrite(s, ByFlush(f));
      if w.None? then PopMeta(t.(flushes := t.flushes + [Over]), f)
      else t.(flushes := t.flushes + [AwaitingWrite(w.value)])
    case PutTakesEffect(w) =>
      s.(writes := s.writes[w := s.writes[w].(applied := true)],
         row := Some(Row(Some(s.writes[w].transfer), false)))
    case WriteReturns(w, ok) =>
      var t := s.(writes := s.writes[w := s.writes[w].(result := Some(ok))],
                  meta := if ok && s.meta.Some? then Some(s.meta.value.(outcomeWritten := true)) else s.meta);
      (match s.writes[w].owner
       case ByGrace(g) => QueueEnd(t, g, Some(w))
       case ByFlush(f) => PopMeta(t, f))
    case UpdateReturns(f, ok) =>
      s.(flushes := s.flushes[f := Over],
         row := if !ok then s.row
                else Some(Row(if s.row.Some? then s.row.value.transferRequested else None, true)))
  }

  predicate Initial(s: State) {
    && s == State(false, [], [], [], [], s.meta, None, 0)
    && (s.meta.None? || s.meta == Some(Meta(false, false)))
  }

  predicate Next(cfg: Wiring, s: State, e: Event, t: State) {
    Enabled(s, e) && t == Step(cfg, s, e)
  }

  /** ss[i] is the state before step tr[i]. */
  ghost predicate IsRun(cfg: Wiring, ss: seq<State>, tr: seq<Event>) {
    && |ss| == |tr| + 1
    && Initial(ss[0])
    && forall i | 0 <= i < |tr| :: Next(cfg, ss[i], tr[i], ss[i + 1])
  }

  // --- one winner, one end ----------------------------------------------------------------

  /** The first invocation wins and every other one is declined; the winner makes at most one
      grace task, which ends the call at most once. */
  ghost predicate OneWinner(s: State) {
    && (s.ending <==> s.invocations != [])
    && (s.invocations != [] ==> !s.invocations[0].Declined?)
    && (forall k | 1 <= k < |s.invocations| :: s.invocations[k].Declined?)
    && |s.graces| == (if s.invocations != [] && s.invocations[0].Handled? then 1 else 0)
    && s.endFrames == (if s.graces != [] && s.graces[0].Ended? then 1 else 0)
  }

  /** A grace task that writes, or has written, refers to its own write. */
  ghost predicate GraceLink(s: State, g: nat)
    requires g < |s.graces|
  {
    match s.graces[g]
    case Sleeping => true
    case Writing(w) => w < |s.writes| && s.writes[w].owner == ByGrace(g) && s.writes[w].result.None?
    case Ended(None) => true
    case Ended(Some(w)) => w < |s.writes| && s.writes[w].owner == ByGrace(g) && s.writes[w].result.Some?
  }

  /** A write refers to the coroutine that awaits it. */
  ghost predicate WriteLink(s: State, w: nat)
    requires w < |s.writes|
  {
    match s.writes[w].owner
    case ByGrace(g) =>
      g < |s.graces| && s.graces[g] == (if s.writes[w].result.None? then Writing(w) else Ended(Some(w)))
    case ByFlush(f) =>
      f < |s.flushes| && (s.writes[w].result.None? ==> s.flushes[f] == AwaitingWrite(w))
  }

  ghost predicate Linked(s: State) {
    && (forall g | 0 <= g < |s.graces| :: GraceLink(s, g))
    && (forall w | 0 <= w < |s.writes| :: WriteLink(s, w))
  }

  lemma StepKeepsOneWinner(cfg: Wiring, s: State, e: Event)
    requires Enabled(s, e) && OneWinner(s) && Linked(s)
    ensures OneWinner(Step(cfg, s, e))
  {
    match e
    case WriteReturns(w, ok) => assert WriteLink(s, w);
    case _ =>
  }

  lemma StepKeepsLinked(cfg: Wiring, s: State, e: Event)
    requires Enabled(s, e) && Linked(s)
    ensures Linked(Step(cfg, s, e))
  {
    var t := Step(cfg, s, e);
    forall g | 0 <= g < |t.graces| ensures GraceLink(t, g) { GraceStaysLinked(cfg, s, e, g); }
    forall w | 0 <= w < |t.writes| ensures WriteLink(t, w) { WriteStaysLinked(cfg, s, e, w); }
  }

  lemma GraceStaysLinked(cfg: Wiring, s: State, e: Event, g: nat)
    requires Enabled(s, e) && Linked(s) && g < |Step(cfg, s, e).graces|
    ensures GraceLink(Step(cfg, s, e), g)
  {
    if g < |s.graces| { assert GraceLink(s, g); }
    match e
    case WriteReturns(w, ok) =>
      assert WriteLink(s, w);
      ReturnKeepsGraceLink(cfg, s, w, ok, g);
    case _ =>
  }

  lemma ReturnKeepsGraceLink(cfg: Wiring, s: State, w: nat, ok: bool, g: nat)
    requires Enabled(s, WriteReturns(w, ok)) && g < |s.graces|
    requires WriteLink(s, w) && GraceLink(s, g)
    ensures GraceLink(Step(cfg, s, WriteReturns(w, ok)), g)
  {
  }

  lemma WriteStaysLinked(cfg: Wiring, s: State, e: Event, w: nat)
    requires Enabled(s, e) && Linked(s) && w < |Step(cfg, s, e).writes|
    ensures WriteLink(Step(cfg, s, e), w)
  {
    if w < |s.writes| { assert WriteLink(s, w); }
    match e
    case WriteReturns(v, ok) =>
      assert WriteLink(s, v);
      ReturnKeepsWriteLink(cfg, s, v, ok, w);
    case _ =>
  }

  lemma ReturnKeepsWriteLink(cfg: Wiring, s: State, v: nat, ok: bool, w: nat)
    requires Enabled(s, WriteReturns(v, ok)) && w < |s.writes|
    requires WriteLink(s, v) && WriteLink(s, w)
    ensures WriteLink(Step(cfg, s, WriteReturns(v, ok)), w)
  {
  }

  lemma {:induction false} OneWinnerAlways(cfg: Wiring, ss: seq<State>, tr: seq<Event>, i: nat)
    requires IsRun(cfg, ss, tr) && i <= |tr|
    ensures OneWinner(ss[i]) && Linked(ss[i])
  {
    if i > 0 {
      OneWinnerAlways(cfg, ss, tr, i - 1);
      assert Next(cfg, ss[i - 1], tr[i - 1], ss[i]);
      StepKeepsOneWinner(cfg, ss[i - 1], tr[i - 1]);
      StepKeepsLinked(cfg, ss[i - 1], tr[i - 1]);
    }
  }

  /** Whatever the interleaving: all invocations but the first are declined, at most one
      EndTaskFrame is queued, and it is queued after every outcome write of the grace task. */
  lemma OneEndAfterTheWrite(cfg: Wiring, ss: seq<State>, tr: seq<Event>, i: nat)
    requires IsRun(cfg, ss, tr) && i <= |tr|
    ensures forall k | 0 <= k < |ss[i].invocations| :: ss[i].invocations[k].Declined? <==> k > 0
    ensures ss[i].endFrames <= 1
    ensures ss[i].endFrames == 1 ==>
              forall w | 0 <= w < |ss[i].writes| && ss[i].writes[w].owner.ByGrace? :: ss[i].writes[w].result.Some?
  {
    OneWinnerAlways(cfg, ss, tr, i);
    forall w | 0 <= w < |ss[i].writes| && ss[i].writes[w].owner.ByGrace? && ss[i].endFrames == 1
      ensures ss[i].writes[w].result.Some?
    {
      assert WriteLink(ss[i], w);
    }
  }

  /** The grace task does end the call: once its sleep is over the frame is queued, or the task's
      write is still in flight. */
  lemma {:induction false} GraceEndsTheCall(cfg: Wiring, ss: seq<State>, tr: seq<Event>, k: nat, i: nat)
    requires IsRun(cfg, ss, tr) && k < i <= |tr| && tr[k].GraceOver?
    ensures |ss[i].graces| == 1
    ensures match ss[i].graces[0]
            case Sleeping => false
            case Writing(w) => InFlight(ss[i], w) && ss[i].writes[w].owner == ByGrace(0)
            case Ended(_) => ss[i].endFrames == 1
    decreases i
  {
    OneWinnerAlways(cfg, ss, tr, i - 1);
    OneWinnerAlways(cfg, ss, tr, i);
    assert Next(cfg, ss[i - 1], tr[i - 1], ss[i]);
    if k < i - 1 { GraceEndsTheCall(cfg, ss, tr, k, i - 1); }
    assert GraceLink(ss[i], 0);
  }

  /** The flush awaits its own put or the update of the turns. */
  ghost predicate FlushIsBusy(s: State) {
    && |s.flushes| == 1
    && match s.flushes[0]
       case AwaitingWrite(w) => InFlight(s, w) && s.writes[w].owner == ByFlush(0) && s.meta.Some?
       case Updating => true
       case Over => false
  }

  lemma FlushStartsBusy(cfg: Wiring, s: State)
    requires s.flushes == [] && s.meta.Some?
    ensures FlushIsBusy(Step(cfg, s, HangUp))
  {
  }

  lemma FlushStaysBusy(cfg: Wiring, s: State, e: Event)
    requires Enabled(s, e) && Linked(s) && FlushIsBusy(s) && !e.UpdateReturns?
    ensures FlushIsBusy(Step(cfg, s, e))
  {
    if e.WriteReturns? { assert WriteLink(s, e.w); }
  }

  ghost predicate FlushIsOver(s: State) {
    |s.flushes| == 1 && s.flushes[0].Over?
  }

  lemma FlushStaysOver(cfg: Wiring, s: State, e: Event)
    requires Enabled(s, e) && Linked(s)
    requires FlushIsOver(s) || (FlushIsBusy(s) && e.UpdateReturns?)
    ensures FlushIsOver(Step(cfg, s, e))
  {
    if e.WriteReturns? { assert WriteLink(s, e.w); }
  }

  /** The flush does write the turns of a call that has meta data: after the session's end its own
      put is in flight, the update of the turns is, or the update has returned. */
  lemma {:induction false} FlushUpdatesTheTurns(cfg: Wiring, ss: seq<State>, tr: seq<Event>, k: nat, i: nat)
    requires IsRun(cfg, ss, tr) && k < i <= |tr| && tr[k].HangUp? && ss[k].meta.Some?
    ensures FlushIsBusy(ss[i]) || (FlushIsOver(ss[i]) && exists u | k < u < i :: tr[u].UpdateReturns?)
    decreases i
  {
    assert Next(cfg, ss[i - 1], tr[i - 1], ss[i]);
    if k == i - 1 {
      FlushStartsBusy(cfg, ss[k]);
    } else {
      OneWinnerAlways(cfg, ss, tr, i - 1);
      FlushUpdatesTheTurns(cfg, ss, tr, k, i - 1);
      if FlushIsBusy(ss[i - 1]) && !tr[i - 1].UpdateReturns? {
        FlushStaysBusy(cfg, ss[i - 1], tr[i - 1]);
      } else {
        FlushStaysOver(cfg, ss[i - 1], tr[i - 1]);
      }
    }
  }

  // --- what the outcome row says ------------------------------------------------------------

  /** The call is being ended by a transfer. */
  predicate TransferWon(s: State) {
    s.invocations != [] && !s.invocations[0].Declined? && s.invocations[0].tool.Transfer?
  }

  ghost predicate FlagsMatch(s: State) {
    && (s.meta.Some? ==> s.meta.value.transferRequested == TransferWon(s))
    && forall w | 0 <= w < |s.writes| && s.writes[w].owner.ByGrace? :: s.writes[w].transfer == TransferWon(s)
  }

  lemma {:induction false} FlagsMatchAlways(cfg: Wiring, ss: seq<State>, tr: seq<Event>, i: nat)
    requires IsRun(cfg, ss, tr) && cfg.marks && i <= |tr|
    ensures FlagsMatch(ss[i])
  {
    if i > 0 {
      FlagsMatchAlways(cfg, ss, tr, i - 1);
      OneWinnerAlways(cfg, ss, tr, i - 1);
      assert Next(cfg, ss[i - 1], tr[i - 1], ss[i]);
      FlagsStayMatched(cfg, ss[i - 1], tr[i - 1]);
    }
  }

  lemma FlagsStayMatched(cfg: Wiring, s: State, e: Event)
    requires Enabled(s, e) && cfg.marks && OneWinner(s) && Linked(s) && FlagsMatch(s)
    ensures FlagsMatch(Step(cfg, s, e))
  {
    var t := Step(cfg, s, e);
    forall w | 0 <= w < |t.writes| && t.writes[w].owner.ByGrace? ensures t.writes[w].transfer == TransferWon(t) {
      if w < |s.writes| { assert WriteLink(s, w); }
    }
  }

  /** The row that the grace task's write puts into the table asks for a callback exactly
      when the call is ended by a transfer. */
  lemma OutcomeRowNamesTheWinner(cfg: Wiring, ss: seq<State>, tr: seq<Event>, i: nat, w: nat)
    requires IsRun(cfg, ss, tr) && cfg.marks && i < |tr| && tr[i] == PutTakesEffect(w)
    requires w < |ss[i].writes| && ss[i].writes[w].owner.ByGrace?
    ensures ss[i + 1].row == Some(Row(Some(TransferWon(ss[i])), false))
    ensures TransferWon(ss[i + 1]) == TransferWon(ss[i])
  {
    assert Next(cfg, ss[i], tr[i], ss[i + 1]);
    FlagsMatchAlways(cfg, ss, tr, i);
  }

  // --- how often the row is put --------------------------------------------------------------

  ghost predicate InFlight(s: State, w: nat) {
    w < |s.writes| && s.writes[w].result.None?
  }

  /** Step i begins a write. */
  ghost predicate BeginsWrite(ss: seq<State>, i: nat)
    requires i + 1 < |ss|
  {
    |ss[i + 1].writes| > |ss[i].writes|
  }

  /** A write that succeeded closes the row to new writes. */
  ghost predicate SuccessIsNoted(s: State) {
    forall w | 0 <= w < |s.writes| && s.writes[w].result == Some(true) ::
      s.meta.None? || s.meta.value.outcomeWritten
  }

  lemma {:induction false} SuccessIsNotedAlways(cfg: Wiring, ss: seq<State>, tr: seq<Event>, i: nat)
    requires IsRun(cfg, ss, tr) && i <= |tr|
    ensures SuccessIsNoted(ss[i])
  {
    if i > 0 {
      SuccessIsNotedAlways(cfg, ss, tr, i - 1);
      assert Next(cfg, ss[i - 1], tr[i - 1], ss[i]);
    }
  }

  lemma {:induction false} ResultsAreFinal(cfg: Wiring, ss: seq<State>, tr: seq<Event>, i: nat, j: nat, w: nat)
    requires IsRun(cfg, ss, tr) && i <= j <= |tr| && w < |ss[i].writes|
    ensures w < |ss[j].writes|
    ensures ss[i].writes[w].result.Some? ==> ss[j].writes[w].result == ss[i].writes[w].result
    decreases j
  {
    if i < j {
      ResultsAreFinal(cfg, ss, tr, i, j - 1, w);
      assert Next(cfg, ss[j - 1], tr[j - 1], ss[j]);
    }
  }

  /** Of two writes that succeed, the second began while the first was still in flight. */
  lemma SuccessfulWritesOverlap(cfg: Wiring, ss: seq<State>, tr: seq<Event>, b: nat, j: nat, v: nat, w: nat)
    requires IsRun(cfg, ss, tr) && b < j <= |tr| && v < w
    requires BeginsWrite(ss, b) && |ss[b].writes| == w
    requires w < |ss[j].writes| && ss[j].writes[v].result == Some(true) == ss[j].writes[w].result
    ensures InFlight(ss[b], v)
  {
    assert Next(cfg, ss[b], tr[b], ss[b + 1]);
    SuccessIsNotedAlways(cfg, ss, tr, b);
    ResultsAreFinal(cfg, ss, tr, b, j, v);
  }

  /** No write begins while another one is in flight. */
  ghost predicate NoOverlap(ss: seq<State>) {
    forall i: nat, w: nat | i + 1 < |ss| && BeginsWrite(ss, i) && w < |ss[i].writes| :: !InFlight(ss[i], w)
  }

  lemma {:induction false} WriteHasABeginning(cfg: Wiring, ss: seq<State>, tr: seq<Event>, j: nat, w: nat) returns (b: nat)
    requires IsRun(cfg, ss, tr) && j <= |tr| && w < |ss[j].writes|
    ensures b < j && BeginsWrite(ss, b) && |ss[b].writes| == w
  {
    assert Next(cfg, ss[j - 1], tr[j - 1], ss[j]);
    if w < |ss[j - 1].writes| {
      b := WriteHasABeginning(cfg, ss, tr, j - 1, w);
    } else {
      b := j - 1;
    }
  }

  // --- whose outcome the row holds -----------------------------------------------------------

  /** Step p is the last before step i at which a put takes effect. */
  ghost predicate IsLastPut(tr: seq<Event>, p: nat, i: nat)
    requires i <= |tr|
  {
    p < i && tr[p].PutTakesEffect? && forall k | p < k < i :: !tr[k].PutTakesEffect?
  }

  lemma {:induction false} RowIsTheLastPut(cfg: Wiring, ss: seq<State>, tr: seq<Event>, p: nat, i: nat)
    requires IsRun(cfg, ss, tr) && i <= |tr| && IsLastPut(tr, p, i)
    ensures tr[p].w < |ss[p].writes| && ss[i].row.Some?
    ensures ss[i].row.value.transferRequested == Some(ss[p].writes[tr[p].w].transfer)
  {
    assert Next(cfg, ss[i - 1], tr[i - 1], ss[i]);
    if p < i - 1 { RowIsTheLastPut(cfg, ss, tr, p, i - 1); }
  }

  lemma {:induction false} TransferIsFixed(cfg: Wiring, ss: seq<State>, tr: seq<Event>, i: nat, j: nat, w: nat)
    requires IsRun(cfg, ss, tr) && i <= j <= |tr| && w < |ss[i].writes|
    ensures w < |ss[j].writes| && ss[j].writes[w].transfer == ss[i].writes[w].transfer
    decreases j
  {
    if i < j {
      TransferIsFixed(cfg, ss, tr, i, j - 1, w);
      assert Next(cfg, ss[j - 1], tr[j - 1], ss[j]);
      TransferStays(cfg, ss[j - 1], tr[j - 1], w);
    }
  }

  lemma TransferStays(cfg: Wiring, s: State, e: Event, w: nat)
    requires Enabled(s, e) && w < |s.writes|
    ensures w < |Step(cfg, s, e).writes| && Step(cfg, s, e).writes[w].transfer == s.writes[w].transfer
  {
  }

  /** Step k is the transfer that wins. */
  ghost predicate TransferWinsAt(ss: seq<State>, tr: seq<Event>, k: nat) {
    k < |tr| && k < |ss| && tr[k] == Invoked(Transfer) && !ss[k].ending
  }

  /** The winner changes only when a transfer wins. */
  lemma {:induction false} WinnerSince(cfg: Wiring, ss: seq<State>, tr: seq<Event>, b: nat, i: nat)
    requires IsRun(cfg, ss, tr) && b <= i <= |tr|
    ensures TransferWon(ss[b]) ==> TransferWon(ss[i])
    ensures TransferWon(ss[i]) && !TransferWon(ss[b]) <==> exists k: nat | b <= k < i :: TransferWinsAt(ss, tr, k)
    decreases i
  {
    if b < i {
      WinnerSince(cfg, ss, tr, b, i - 1);
      OneWinnerAlways(cfg, ss, tr, i - 1);
      assert Next(cfg, ss[i - 1], tr[i - 1], ss[i]);
      WinnerInAStep(cfg, ss[i - 1], tr[i - 1]);
      if TransferWinsAt(ss, tr, i - 1) { NobodyWonBefore(cfg, ss, tr, b, i - 1); }
    }
  }

  lemma WinnerInAStep(cfg: Wiring, s: State, e: Event)
    requires Enabled(s, e) && OneWinner(s)
    ensures TransferWon(Step(cfg, s, e)) <==> TransferWon(s) || (e == Invoked(Transfer) && !s.ending)
  {
  }

  lemma {:induction false} NobodyWonBefore(cfg: Wiring, ss: seq<State>, tr: seq<Event>, b: nat, i: nat)
    requires IsRun(cfg, ss, tr) && b <= i <= |tr| && !ss[i].ending
    ensures !TransferWon(ss[b])
    decreases i
  {
    OneWinnerAlways(cfg, ss, tr, i);
    if b < i {
      assert Next(cfg, ss[i - 1], tr[i - 1], ss[i]);
      NobodyWonBefore(cfg, ss, tr, b, i - 1);
    }
  }

  /** The row in the table, whoever put it, names the winner exactly if no transfer has won since
      its write began. */
  lemma RowNamesTheWinnerExactlyWhen(cfg: Wiring, ss: seq<State>, tr: seq<Event>, b: nat, p: nat, i: nat)
    requires IsRun(cfg, ss, tr) && cfg.marks && b < p < i <= |tr| && IsLastPut(tr, p, i)
    requires BeginsWrite(ss, b) && |ss[b].writes| == tr[p].w
    ensures ss[i].row.Some?
    ensures ss[i].row.value.transferRequested == Some(TransferWon(ss[i])) <==>
            !exists k: nat | b <= k < i :: TransferWinsAt(ss, tr, k)
  {
    assert Next(cfg, ss[b], tr[b], ss[b + 1]);
    RowIsTheLastPut(cfg, ss, tr, p, i);
    TransferIsFixed(cfg, ss, tr, b + 1, p, tr[p].w);
    FlagsMatchAlways(cfg, ss, tr, b);
    WinnerSince(cfg, ss, tr, b, i);
  }

  // --- how many puts succeed ------------------------------------------------------------------

  /** Without overlap the row is successfully put at most once. */
  lemma RowIsPutAtMostOnce(cfg: Wiring, ss: seq<State>, tr: seq<Event>, j: nat, v: nat, w: nat)
    requires IsRun(cfg, ss, tr) && NoOverlap(ss) && j <= |tr|
    requires v < |ss[j].writes| && w < |ss[j].writes|
    requires ss[j].writes[v].result == Some(true) && ss[j].writes[w].result == Some(true)
    ensures v == w
  {
    if v != w {
      var first, second := if v < w then v else w, if v < w then w else v;
      var b := WriteHasABeginning(cfg, ss, tr, j, second);
      SuccessfulWritesOverlap(cfg, ss, tr, b, j, first, second);
      assert false;
    }
  }

  // --- the turns are not overwritten ----------------------------------------------------------

  ghost predicate HasTurns(s: State) {
    s.row.Some? && s.row.value.hasTurns
  }

  ghost predicate Idle(s: State) {
    forall w: nat | w < |s.writes| :: !InFlight(s, w)
  }

  ghost predicate OneInFlight(s: State) {
    forall v: nat, w: nat | v < w < |s.writes| :: !(InFlight(s, v) && InFlight(s, w))
  }

  /** At most one write is in flight, and none once the row is written or the call flushed;
      the turns are written only after the call's meta data is gone. */
  ghost predicate Orderly(s: State) {
    && OneInFlight(s)
    && (s.meta.None? || s.meta.value.outcomeWritten ==> Idle(s))
    && (HasTurns(s) ==> s.meta.None?)
    && (forall f | 0 <= f < |s.flushes| && s.flushes[f].Updating? :: s.meta.None?)
  }

  lemma OthersStayIdle(s: State, t: State, w: nat)
    requires InFlight(s, w) && OneInFlight(s)
    requires |t.writes| == |s.writes| && t.writes[w].result.Some?
    requires forall v | 0 <= v < |s.writes| && v != w :: t.writes[v] == s.writes[v]
    ensures Idle(t)
  {
    forall v: nat | v < |t.writes| ensures !InFlight(t, v) {
      if v < w {
        assert !(InFlight(s, v) && InFlight(s, w));
      } else if v > w {
        assert !(InFlight(s, w) && InFlight(s, v));
      }
    }
  }

  lemma StepKeepsOrder(cfg: Wiring, s: State, e: Event)
    requires Enabled(s, e) && Orderly(s)
    requires |Step(cfg, s, e).writes| > |s.writes| ==> Idle(s)
    ensures Orderly(Step(cfg, s, e))
  {
    var t := Step(cfg, s, e);
    match e
    case WriteReturns(w, ok) => OthersStayIdle(s, t, w);
    case PutTakesEffect(w) =>
      assert forall v: nat | v < |t.writes| :: InFlight(t, v) == InFlight(s, v);
    case HangUp =>
      assert forall v: nat | v < |s.writes| :: InFlight(t, v) == InFlight(s, v);
    case GraceOver(_) =>
      assert forall v: nat | v < |s.writes| :: InFlight(t, v) == InFlight(s, v);
    case _ =>
      assert forall v: nat | v < |t.writes| :: InFlight(t, v) == InFlight(s, v);
  }

  lemma {:induction false} OrderlyAlways(cfg: Wiring, ss: seq<State>, tr: seq<Event>, i: nat)
    requires IsRun(cfg, ss, tr) && NoOverlap(ss) && i <= |tr|
    ensures Orderly(ss[i])
  {
    if i > 0 {
      OrderlyAlways(cfg, ss, tr, i - 1);
      assert Next(cfg, ss[i - 1], tr[i - 1], ss[i]);
      assert BeginsWrite(ss, i - 1) ==> Idle(ss[i - 1]);
      StepKeepsOrder(cfg, ss[i - 1], tr[i - 1]);
    }
  }

  /** Without overlap no put ever wipes out turns that have been written. */
  lemma TurnsAreNotOverwritten(cfg: Wiring, ss: seq<State>, tr: seq<Event>, i: nat)
    requires IsRun(cfg, ss, tr) && NoOverlap(ss) && i < |tr|
    ensures HasTurns(ss[i]) ==> HasTurns(ss[i + 1])
  {
    assert Next(cfg, ss[i], tr[i], ss[i + 1]);
    OrderlyAlways(cfg, ss, tr, i);
    if tr[i].PutTakesEffect? {
      assert InFlight(ss[i], tr[i].w);
    }
  }

  // --- with overlap the turns can be lost -----------------------------------------------------

  /** The caller hangs up while the grace task's put is under way, and that put takes effect
      after the turns have been written. */
  function HangUpDuringThePut(): seq<Event> {
    [Invoked(EndCall), EmitReturns(0), GraceOver(0), HangUp, PutTakesEffect(1), WriteReturns(1, true),
     UpdateReturns(0, true), PutTakesEffect(0)]
  }

  /** From the invocation to the moment when both writes are under way. */
  function UntilBothWrite(): seq<State> {
    var m := Some(Meta(false, false));
    [State(false, [], [], [], [], m, None, 0),
     State(true, [Emitting(EndCall)], [], [], [], m, None, 0),
     State(true, [Handled(EndCall)], [Sleeping], [], [], m, None, 0),
     State(true, [Handled(EndCall)], [Writing(0)], [Write(ByGrace(0), false, false, None)], [], m, None, 0),
     Overlapping(false, None, AwaitingWrite(1), m, None)]
  }

  /** The states in which the grace task's write is in flight beside the flush's one. */
  function Overlapping(put: bool, result: Option<bool>, flush: Flush, meta: Option<Meta>, row: Option<Row>): State {
    State(true, [Handled(EndCall)], [Writing(0)],
          [Write(ByGrace(0), false, false, None), Write(ByFlush(0), false, put, result)], [flush], meta, row, 0)
  }

  function FromBothWriting(): seq<State> {
    var m := Some(Meta(false, false));
    var last := Overlapping(true, Some(true), Over, None, Some(Row(Some(false), true)));
    [Overlapping(true, None, AwaitingWrite(1), m, Some(Row(Some(false), false))),
     Overlapping(true, Some(true), Updating, None, Some(Row(Some(false), false))),
     last,
     last.(writes := last.writes[0 := Write(ByGrace(0), false, true, None)], row := Some(Row(Some(false), false)))]
  }

  lemma BothWrite()
    ensures forall i | 0 <= i < 4 ::
              Next(Wiring(true, true), UntilBothWrite()[i], HangUpDuringThePut()[i], UntilBothWrite()[i + 1])
  {
  }

  lemma FlushOvertakes()
    ensures Next(Wiring(true, true), UntilBothWrite()[4], PutTakesEffect(1), FromBothWriting()[0])
    ensures forall i | 0 <= i < 3 ::
              Next(Wiring(true, true), FromBothWriting()[i], HangUpDuringThePut()[5 + i], FromBothWriting()[i + 1])
  {
  }

  /** Turns that were written after a successful put are gone again. */
  lemma OverlapLosesTheTurns()
    ensures exists ss: seq<State> | IsRun(Wiring(true, true), ss, HangUpDuringThePut()) ::
              && |ss[7].writes| == 2 && ss[7].writes[1].result == Some(true)
              && HasTurns(ss[7]) && !HasTurns(ss[8])
  {
    var ss := UntilBothWrite() + FromBothWriting();
    BothWrite();
    FlushOvertakes();
    assert IsRun(Wiring(true, true), ss, HangUpDuringThePut());
  }

  /** That is no accident of the example: whenever the caller hangs up while a put is still to
      take effect, these five steps are possible, and they lose the turns. */
  function LosingTheTurns(s: State, v: nat): seq<Event> {
    [HangUp, PutTakesEffect(|s.writes|), WriteReturns(|s.writes|, true), UpdateReturns(|s.flushes|, true),
     PutTakesEffect(v)]
  }

  lemma EveryOverlapCanLoseTheTurns(cfg: Wiring, s: State, v: nat)
    requires InFlight(s, v) && !s.writes[v].applied
    requires s.meta.Some? && !s.meta.value.outcomeWritten && s.flushes == []
    ensures exists ss: seq<State> | |ss| == 6 && ss[0] == s ::
              && (forall i | 0 <= i < 5 :: Next(cfg, ss[i], LosingTheTurns(s, v)[i], ss[i + 1]))
              && HasTurns(ss[4]) && !HasTurns(ss[5])
  {
    var w, f := |s.writes|, |s.flushes|;
    var s1 := Step(cfg, s, HangUp);
    assert s1.writes[w] == Write(ByFlush(f), s.meta.value.transferRequested, false, None);
    var s2 := Step(cfg, s1, PutTakesEffect(w));
    var s3 := Step(cfg, s2, WriteReturns(w, true));
    assert s3.flushes[f] == Updating && s3.writes[v] == s.writes[v];
    var s4 := Step(cfg, s3, UpdateReturns(f, true));
    var s5 := Step(cfg, s4, PutTakesEffect(v));
    var ss := [s, s1, s2, s3, s4, s5];
    assert forall i | 0 <= i < 5 :: Next(cfg, ss[i], LosingTheTurns(s, v)[i], ss[i + 1]);
  }

  // --- every overlap, whoever begins it --------------------------------------------------------------

  /** ps leads from its first state along ms, and no write begins on the way. */
  ghost predicate IsPath(cfg: Wiring, ps: seq<State>, ms: seq<Event>) {
    && |ps| == |ms| + 1
    && forall k | 0 <= k < |ms| :: Next(cfg, ps[k], ms[k], ps[k + 1]) && |ps[k + 1].writes| == |ps[k].writes|
  }

  ghost predicate LosesTurns(ss: seq<State>) {
    exists k: nat :: k + 1 < |ss| && HasTurns(ss[k]) && !HasTurns(ss[k + 1])
  }

  ghost predicate HasTwoSuccesses(s: State) {
    exists v: nat, w: nat :: v < w < |s.writes| && s.writes[v].result == Some(true) && s.writes[w].result == Some(true)
  }

  lemma FirstStep(cfg: Wiring, s: State, e: Event, ps: seq<State>, ms: seq<Event>)
    requires Enabled(s, e) && |Step(cfg, s, e).writes| == |s.writes|
    requires IsPath(cfg, ps, ms) && ps[0] == Step(cfg, s, e)
    ensures IsPath(cfg, [s] + ps, [e] + ms)
    ensures LosesTurns(ps) ==> LosesTurns([s] + ps)
  {
    if LosesTurns(ps) {
      var k: nat :| k + 1 < |ps| && HasTurns(ps[k]) && !HasTurns(ps[k + 1]);
      assert ([s] + ps)[k + 1] == ps[k] && ([s] + ps)[k + 2] == ps[k + 1];
    }
  }

  /** The put of a flush has taken effect, and another one has not yet. */
  lemma FlushReturnsFirst(cfg: Wiring, s: State, v: nat, w: nat) returns (ps: seq<State>, ms: seq<Event>)
    requires InFlight(s, v) && InFlight(s, w) && v != w && s.writes[v].applied && !s.writes[w].applied
    requires s.meta.Some? && s.writes[v].owner.ByFlush? && s.writes[v].owner.f < |s.flushes|
    ensures IsPath(cfg, ps, ms) && ps[0] == s && LosesTurns(ps)
  {
    var f := s.writes[v].owner.f;
    var s1 := Step(cfg, s, WriteReturns(v, true));
    assert s1.flushes[f] == Updating && s1.writes[w] == s.writes[w];
    var s2 := Step(cfg, s1, UpdateReturns(f, true));
    var s3 := Step(cfg, s2, PutTakesEffect(w));
    ps, ms := [s, s1, s2, s3], [WriteReturns(v, true), UpdateReturns(f, true), PutTakesEffect(w)];
    assert HasTurns(ps[2]) && !HasTurns(ps[3]);
  }

  lemma FlushOvertakesPut(cfg: Wiring, s: State, v: nat, w: nat) returns (ps: seq<State>, ms: seq<Event>)
    requires InFlight(s, v) && InFlight(s, w) && v != w && !s.writes[w].applied
    requires s.meta.Some? && s.writes[v].owner.ByFlush? && s.writes[v].owner.f < |s.flushes|
    ensures IsPath(cfg, ps, ms) && ps[0] == s && LosesTurns(ps)
  {
    if s.writes[v].applied {
      ps, ms := FlushReturnsFirst(cfg, s, v, w);
    } else {
      var s1 := Step(cfg, s, PutTakesEffect(v));
      ps, ms := FlushReturnsFirst(cfg, s1, v, w);
      FirstStep(cfg, s, PutTakesEffect(v), ps, ms);
      ps, ms := [s] + ps, [PutTakesEffect(v)] + ms;
    }
  }

  /** Step i begins write w while write v is in flight: at most one of the two is the grace
      task's. */
  lemma OverlapHasAFlush(cfg: Wiring, ss: seq<State>, tr: seq<Event>, i: nat, v: nat)
    requires IsRun(cfg, ss, tr) && i < |tr| && BeginsWrite(ss, i) && InFlight(ss[i], v)
    ensures var s, w := ss[i + 1], |ss[i].writes|;
            && v < w && |s.writes| == w + 1 && InFlight(s, v) && InFlight(s, w) && !s.writes[w].applied
            && s.meta.Some? && WriteLink(s, v) && WriteLink(s, w)
            && (s.writes[v].owner.ByFlush? || s.writes[w].owner.ByFlush?)
  {
    assert Next(cfg, ss[i], tr[i], ss[i + 1]);
    OneWinnerAlways(cfg, ss, tr, i + 1);
    var s, w := ss[i + 1], |ss[i].writes|;
    assert WriteLink(s, v) && WriteLink(s, w);
  }

  /** Write v, in flight when another one begins, is the flush's or has yet to take effect. */
  ghost predicate CanLose(s: State, v: nat) {
    InFlight(s, v) && (s.writes[v].owner.ByFlush? || !s.writes[v].applied)
  }

  lemma OverlapLosesOnAPath(cfg: Wiring, s: State, v: nat, w: nat) returns (ps: seq<State>, ms: seq<Event>)
    requires v != w && CanLose(s, v) && InFlight(s, w) && !s.writes[w].applied
    requires s.meta.Some? && WriteLink(s, v) && WriteLink(s, w)
    requires s.writes[v].owner.ByFlush? || s.writes[w].owner.ByFlush?
    ensures IsPath(cfg, ps, ms) && ps[0] == s && LosesTurns(ps)
  {
    if s.writes[v].owner.ByFlush? {
      ps, ms := FlushOvertakesPut(cfg, s, v, w);
    } else {
      ps, ms := FlushOvertakesPut(cfg, s, w, v);
    }
  }

  /** One write takes effect, if it has not, and succeeds. */
  lemma PutSucceeds(cfg: Wiring, s: State, v: nat) returns (ps: seq<State>, ms: seq<Event>)
    requires InFlight(s, v)
    requires match s.writes[v].owner case ByGrace(g) => g < |s.graces| case ByFlush(f) => f < |s.flushes|
    ensures IsPath(cfg, ps, ms) && ps[0] == s
    ensures var t := ps[|ms|];
            && |t.writes| == |s.writes| && t.writes[v].result == Some(true)
            && (forall w | 0 <= w < |s.writes| && w != v :: t.writes[w] == s.writes[w])
            && |t.graces| == |s.graces| && |t.flushes| == |s.flushes|
  {
    if s.writes[v].applied {
      ps, ms := [s, Step(cfg, s, WriteReturns(v, true))], [WriteReturns(v, true)];
    } else {
      var s1 := Step(cfg, s, PutTakesEffect(v));
      ps, ms := [s, s1, Step(cfg, s1, WriteReturns(v, true))], [PutTakesEffect(v), WriteReturns(v, true)];
    }
  }

  lemma JoinPaths(cfg: Wiring, ps: seq<State>, ms: seq<Event>, qs: seq<State>, ns: seq<Event>)
    requires IsPath(cfg, ps, ms) && IsPath(cfg, qs, ns) && ps[|ms|] == qs[0]
    ensures IsPath(cfg, ps + qs[1..], ms + ns) && (ps + qs[1..])[|ms + ns|] == qs[|ns|]
  {
    var all := ps + qs[1..];
    forall k | 0 <= k < |ms + ns|
      ensures Next(cfg, all[k], (ms + ns)[k], all[k + 1]) && |all[k + 1].writes| == |all[k].writes|
    {
      if k >= |ms| {
        assert all[k] == qs[k - |ms|] && all[k + 1] == qs[k - |ms| + 1];
        assert Next(cfg, qs[k - |ms|], ns[k - |ms|], qs[k - |ms| + 1]);
      } else {
        assert Next(cfg, ps[k], ms[k], ps[k + 1]);
      }
    }
  }

  lemma BothPutsSucceed(cfg: Wiring, s: State, v: nat, w: nat) returns (ps: seq<State>, ms: seq<Event>)
    requires v < w && InFlight(s, v) && InFlight(s, w) && WriteLink(s, v) && WriteLink(s, w)
    ensures IsPath(cfg, ps, ms) && ps[0] == s && HasTwoSuccesses(ps[|ms|])
  {
    ps, ms := PutSucceeds(cfg, s, v);
    var qs, ns := PutSucceeds(cfg, ps[|ms|], w);
    JoinPaths(cfg, ps, ms, qs, ns);
    ps, ms := ps + qs[1..], ms + ns;
    assert ps[|ms|].writes[v].result == Some(true);
  }

  /** A run that goes on from step i without beginning another write. */
  ghost predicate GoesOn(cfg: Wiring, ss: seq<State>, tr: seq<Event>, i: nat, more: seq<State>, moments: seq<Event>)
    requires |ss| == |tr| + 1 && i < |tr|
  {
    && IsRun(cfg, more, moments) && i < |moments|
    && more[..i + 2] == ss[..i + 2] && moments[..i + 1] == tr[..i + 1]
    && forall k: nat | i < k && k + 1 < |more| :: !BeginsWrite(more, k)
  }

  lemma PathGoesOn(cfg: Wiring, ss: seq<State>, tr: seq<Event>, i: nat, ps: seq<State>, ms: seq<Event>)
    requires IsRun(cfg, ss, tr) && i < |tr| && IsPath(cfg, ps, ms) && ps[0] == ss[i + 1]
    ensures GoesOn(cfg, ss, tr, i, ss[..i + 2] + ps[1..], tr[..i + 1] + ms)
    ensures LosesTurns(ps) ==> LosesTurns(ss[..i + 2] + ps[1..])
  {
    var more, moments := ss[..i + 2] + ps[1..], tr[..i + 1] + ms;
    assert forall k | i + 1 <= k < |more| :: more[k] == ps[k - i - 1];
    forall k | 0 <= k < |moments| ensures Next(cfg, more[k], moments[k], more[k + 1]) {
      if k <= i {
        assert Next(cfg, ss[k], tr[k], ss[k + 1]);
      } else {
        assert Next(cfg, ps[k - i - 1], ms[k - i - 1], ps[k - i]);
      }
    }
    forall k: nat | i < k && k + 1 < |more| ensures !BeginsWrite(more, k) {
      assert |ps[k - i].writes| == |ps[k - i - 1].writes|;
    }
    if LosesTurns(ps) {
      var k: nat :| k + 1 < |ps| && HasTurns(ps[k]) && !HasTurns(ps[k + 1]);
      assert more[i + 1 + k] == ps[k] && more[i + 2 + k] == ps[k + 1];
    }
  }

  lemma AloneMeansNoOverlap(cfg: Wiring, ss: seq<State>, tr: seq<Event>, i: nat, more: seq<State>, moments: seq<Event>)
    requires IsRun(cfg, ss, tr) && i < |tr| && NoOverlap(ss[..i + 1]) && GoesOn(cfg, ss, tr, i, more, moments)
    requires forall v: nat :: !InFlight(ss[i], v)
    ensures NoOverlap(more)
  {
    forall k: nat, w: nat | k + 1 < |more| && BeginsWrite(more, k) && w < |more[k].writes|
      ensures !InFlight(more[k], w)
    {
      assert k <= i;
      assert more[..i + 2][k] == ss[..i + 2][k] == ss[k] && more[..i + 2][k + 1] == ss[..i + 2][k + 1] == ss[k + 1];
      if k < i { assert BeginsWrite(ss[..i + 1], k) && !InFlight(ss[..i + 1][k], w); }
    }
  }

  lemma AloneLosesNothing(cfg: Wiring, ss: seq<State>, tr: seq<Event>, i: nat, more: seq<State>, moments: seq<Event>)
    requires IsRun(cfg, ss, tr) && i < |tr| && NoOverlap(ss[..i + 1]) && GoesOn(cfg, ss, tr, i, more, moments)
    requires forall v: nat :: !InFlight(ss[i], v)
    ensures !LosesTurns(more)
  {
    AloneMeansNoOverlap(cfg, ss, tr, i, more, moments);
    forall k: nat | k + 1 < |more| ensures !(HasTurns(more[k]) && !HasTurns(more[k + 1])) {
      TurnsAreNotOverwritten(cfg, more, moments, k);
    }
  }

  lemma AloneSucceedsOnce(cfg: Wiring, ss: seq<State>, tr: seq<Event>, i: nat, more: seq<State>, moments: seq<Event>)
    requires IsRun(cfg, ss, tr) && i < |tr| && NoOverlap(ss[..i + 1]) && GoesOn(cfg, ss, tr, i, more, moments)
    requires forall v: nat :: !InFlight(ss[i], v)
    ensures !HasTwoSuccesses(more[|moments|])
  {
    AloneMeansNoOverlap(cfg, ss, tr, i, more, moments);
    var t := more[|moments|];
    forall v: nat, w: nat | v < w < |t.writes| && t.writes[v].result == Some(true)
      ensures t.writes[w].result != Some(true)
    {
      if t.writes[w].result == Some(true) { RowIsPutAtMostOnce(cfg, more, moments, |moments|, v, w); }
    }
  }

  // --- two writers, one of them harmless ------------------------------------------------------------

  /** The grace task writes once and the flush writes once. */
  ghost predicate TwoWriters(s: State) {
    && |s.flushes| <= 1
    && (s.flushes == [] ==> forall w | 0 <= w < |s.writes| :: s.writes[w].owner.ByGrace?)
    && forall v, w | 0 <= v < w < |s.writes| :: s.writes[v].owner.ByGrace? || s.writes[w].owner.ByGrace?
  }

  lemma {:induction false} TwoWritersAlways(cfg: Wiring, ss: seq<State>, tr: seq<Event>, i: nat)
    requires IsRun(cfg, ss, tr) && i <= |tr|
    ensures TwoWriters(ss[i]) && |ss[i].writes| <= 2
  {
    if i > 0 {
      TwoWritersAlways(cfg, ss, tr, i - 1);
      StepKeepsTwoWriters(cfg, ss[i - 1], tr[i - 1], ss[i]);
      OneWinnerAlways(cfg, ss, tr, i);
      AtMostTwo(ss[i]);
    }
  }

  lemma StepKeepsTwoWriters(cfg: Wiring, s: State, e: Event, t: State)
    requires Next(cfg, s, e, t) && TwoWriters(s)
    ensures TwoWriters(t)
  {
    assert forall w | 0 <= w < |s.writes| :: t.writes[w].owner == s.writes[w].owner;
  }

  lemma OneOfEach(s: State, v: nat, w: nat)
    requires TwoWriters(s) && OneWinner(s) && Linked(s) && v < w < |s.writes|
    ensures s.writes[v].owner.ByGrace? != s.writes[w].owner.ByGrace?
  {
    assert WriteLink(s, v) && WriteLink(s, w);
  }

  lemma AtMostTwo(s: State)
    requires TwoWriters(s) && OneWinner(s) && Linked(s)
    ensures |s.writes| <= 2
  {
    if |s.writes| > 2 {
      OneOfEach(s, 0, 1);
      OneOfEach(s, 0, 2);
      OneOfEach(s, 1, 2);
    }
  }

  lemma FirstOfTwo(cfg: Wiring, ss: seq<State>, tr: seq<Event>, k: nat, i: nat)
    requires IsRun(cfg, ss, tr) && k < i < |tr| && BeginsWrite(ss, k) && BeginsWrite(ss, i)
    ensures ss[k].writes == []
  {
    TwoWritersAlways(cfg, ss, tr, i + 1);
    ResultsAreFinal(cfg, ss, tr, k + 1, i, |ss[k].writes|);
  }

  /** So every write before the one that begins at step i began alone. */
  lemma EarlierWritesBeganAlone(cfg: Wiring, ss: seq<State>, tr: seq<Event>, i: nat)
    requires IsRun(cfg, ss, tr) && i < |tr| && BeginsWrite(ss, i)
    ensures NoOverlap(ss[..i + 1])
  {
    var before := ss[..i + 1];
    forall k: nat | k + 1 < |before| && BeginsWrite(before, k) ensures before[k].writes == [] {
      FirstOfTwo(cfg, ss, tr, k, i);
    }
  }

  /** Turns are written only after the call's meta data is gone. */
  ghost predicate TurnsAfterMeta(s: State) {
    && (HasTurns(s) ==> s.meta.None?)
    && (forall f | 0 <= f < |s.flushes| && s.flushes[f].Updating? :: s.meta.None?)
  }

  lemma {:induction false} TurnsAfterMetaAlways(cfg: Wiring, ss: seq<State>, tr: seq<Event>, i: nat)
    requires IsRun(cfg, ss, tr) && i <= |tr|
    ensures TurnsAfterMeta(ss[i])
  {
    if i > 0 {
      TurnsAfterMetaAlways(cfg, ss, tr, i - 1);
      assert Next(cfg, ss[i - 1], tr[i - 1], ss[i]);
    }
  }

  /** Write w, the flush's, is the only one that may still take effect, and there are no turns
      before it has returned. */
  ghost predicate OnlyTheFlushPuts(s: State, w: nat) {
    && w < |s.writes| && s.writes[w].owner.ByFlush?
    && (forall v | 0 <= v < |s.writes| && v != w :: s.writes[v].applied || s.writes[v].result.Some?)
    && (InFlight(s, w) ==> !HasTurns(s))
  }

  lemma HarmlessStep(cfg: Wiring, s: State, e: Event, w: nat)
    requires Enabled(s, e) && |Step(cfg, s, e).writes| == |s.writes|
    requires OnlyTheFlushPuts(s, w) && TwoWriters(s) && WriteLink(s, w)
    ensures OnlyTheFlushPuts(Step(cfg, s, e), w)
    ensures HasTurns(s) ==> HasTurns(Step(cfg, s, e))
  {
  }

  /** A put of the grace task that has taken effect before the flush's write begins is harmless. */
  lemma {:induction false} AppliedPutLosesNothing(cfg: Wiring, ss: seq<State>, tr: seq<Event>, i: nat, j: nat, w: nat)
    requires IsRun(cfg, ss, tr) && i <= j <= |tr| && OnlyTheFlushPuts(ss[i], w)
    requires forall k: nat | i <= k < |tr| :: !BeginsWrite(ss, k)
    ensures OnlyTheFlushPuts(ss[j], w)
    ensures j < |tr| && HasTurns(ss[j]) ==> HasTurns(ss[j + 1])
    decreases j
  {
    if i < j { AppliedPutLosesNothing(cfg, ss, tr, i, j - 1, w); }
    OneWinnerAlways(cfg, ss, tr, j);
    TwoWritersAlways(cfg, ss, tr, j);
    if i < j {
      assert Next(cfg, ss[j - 1], tr[j - 1], ss[j]) && !BeginsWrite(ss, j - 1);
      OneWinnerAlways(cfg, ss, tr, j - 1);
      TwoWritersAlways(cfg, ss, tr, j - 1);
      WritesStay(cfg, ss[j - 1], tr[j - 1]);
      HarmlessStep(cfg, ss[j - 1], tr[j - 1], w);
    }
    if j < |tr| {
      assert Next(cfg, ss[j], tr[j], ss[j + 1]) && !BeginsWrite(ss, j);
      WritesStay(cfg, ss[j], tr[j]);
      HarmlessStep(cfg, ss[j], tr[j], w);
    }
  }

  lemma WritesStay(cfg: Wiring, s: State, e: Event)
    requires Enabled(s, e)
    ensures |Step(cfg, s, e).writes| >= |s.writes|
  {
  }

  lemma HarmlessBeginning(cfg: Wiring, ss: seq<State>, tr: seq<Event>, i: nat, v: nat)
    requires IsRun(cfg, ss, tr) && i < |tr| && BeginsWrite(ss, i) && InFlight(ss[i], v)
    requires forall u: nat :: !CanLose(ss[i], u)
    ensures OnlyTheFlushPuts(ss[i + 1], |ss[i].writes|)
  {
    assert !CanLose(ss[i], v);
    assert Next(cfg, ss[i], tr[i], ss[i + 1]);
    OverlapHasAFlush(cfg, ss, tr, i, v);
    TurnsAfterMetaAlways(cfg, ss, tr, i + 1);
    var s, t := ss[i], ss[i + 1];
    forall u: nat | u < |t.writes| && u != |s.writes| ensures t.writes[u].applied || t.writes[u].result.Some? {
      assert t.writes[u] == s.writes[u] && !CanLose(s, u);
    }
  }

  lemma HarmlessOverlap(cfg: Wiring, ss: seq<State>, tr: seq<Event>, i: nat, v: nat, more: seq<State>, moments: seq<Event>)
    requires IsRun(cfg, ss, tr) && i < |tr| && BeginsWrite(ss, i) && InFlight(ss[i], v)
    requires (forall u: nat :: !CanLose(ss[i], u)) && GoesOn(cfg, ss, tr, i, more, moments)
    ensures !LosesTurns(more)
  {
    HarmlessBeginning(cfg, ss, tr, i, v);
    assert more[..i + 2][i + 1] == ss[..i + 2][i + 1] == ss[i + 1];
    forall k: nat | k + 1 < |more| ensures !(HasTurns(more[k]) && !HasTurns(more[k + 1])) {
      if k > i {
        AppliedPutLosesNothing(cfg, more, moments, i + 1, k, |ss[i].writes|);
      } else {
        TurnsAfterMetaAlways(cfg, more, moments, i + 1);
        MetaStaysGone(cfg, more, moments, k, i + 1);
        OverlapHasAFlush(cfg, ss, tr, i, v);
        TurnsAfterMetaAlways(cfg, more, moments, k);
      }
    }
  }

  lemma {:induction false} MetaStaysGone(cfg: Wiring, ss: seq<State>, tr: seq<Event>, i: nat, j: nat)
    requires IsRun(cfg, ss, tr) && i <= j <= |tr|
    ensures ss[i].meta.None? ==> ss[j].meta.None?
    decreases j
  {
    if i < j {
      MetaStaysGone(cfg, ss, tr, i, j - 1);
      assert Next(cfg, ss[j - 1], tr[j - 1], ss[j]);
    }
  }

  /** When a write begins, the run can go on, without another write, to lose turns that were
      written exactly if a write is in flight that is the flush's or has yet to take effect. */
  lemma TurnsAreLostExactlyWhen(cfg: Wiring, ss: seq<State>, tr: seq<Event>, i: nat)
    requires IsRun(cfg, ss, tr) && i < |tr| && BeginsWrite(ss, i)
    ensures (exists more, moments :: GoesOn(cfg, ss, tr, i, more, moments) && LosesTurns(more)) <==>
            exists v: nat :: CanLose(ss[i], v)
  {
    if v: nat :| CanLose(ss[i], v) {
      assert Next(cfg, ss[i], tr[i], ss[i + 1]);
      OverlapHasAFlush(cfg, ss, tr, i, v);
      var ps, ms := OverlapLosesOnAPath(cfg, ss[i + 1], v, |ss[i].writes|);
      PathGoesOn(cfg, ss, tr, i, ps, ms);
    }
    if forall v: nat :: !CanLose(ss[i], v) {
      forall more, moments | GoesOn(cfg, ss, tr, i, more, moments) ensures !LosesTurns(more) {
        HarmlessLosesNothing(cfg, ss, tr, i, more, moments);
      }
    }
  }

  lemma HarmlessLosesNothing(cfg: Wiring, ss: seq<State>, tr: seq<Event>, i: nat, more: seq<State>, moments: seq<Event>)
    requires IsRun(cfg, ss, tr) && i < |tr| && BeginsWrite(ss, i)
    requires (forall v: nat :: !CanLose(ss[i], v)) && GoesOn(cfg, ss, tr, i, more, moments)
    ensures !LosesTurns(more)
  {
    if v: nat :| InFlight(ss[i], v) {
      HarmlessOverlap(cfg, ss, tr, i, v, more, moments);
    } else {
      EarlierWritesBeganAlone(cfg, ss, tr, i);
      AloneLosesNothing(cfg, ss, tr, i, more, moments);
    }
  }

  /** It can go on to put the row twice exactly if any write is in flight. */
  lemma RowIsPutTwiceExactlyWhen(cfg: Wiring, ss: seq<State>, tr: seq<Event>, i: nat)
    requires IsRun(cfg, ss, tr) && i < |tr| && BeginsWrite(ss, i)
    ensures (exists more, moments :: GoesOn(cfg, ss, tr, i, more, moments) && HasTwoSuccesses(more[|moments|])) <==>
            exists v: nat :: InFlight(ss[i], v)
  {
    if v: nat :| InFlight(ss[i], v) {
      OverlapHasAFlush(cfg, ss, tr, i, v);
      var ps, ms := BothPutsSucceed(cfg, ss[i + 1], v, |ss[i].writes|);
      PathGoesOn(cfg, ss, tr, i, ps, ms);
      assert (ss[..i + 2] + ps[1..])[|tr[..i + 1] + ms|] == ps[|ms|];
    }
    if forall v: nat :: !InFlight(ss[i], v) {
      EarlierWritesBeganAlone(cfg, ss, tr, i);
      forall more, moments | GoesOn(cfg, ss, tr, i, more, moments) ensures !HasTwoSuccesses(more[|moments|]) {
        AloneSucceedsOnce(cfg, ss, tr, i, more, moments);
      }
    }
  }

  // --- what the end of a call waits for -----------------------------------------------------------

  /** A row that counts as written was written by a put that succeeded; and unless the call was
      never attached, its meta data goes only with a flush. */
  ghost predicate WrittenMeansSuccess(s: State, attached: bool) {
    && (s.meta.Some? && s.meta.value.outcomeWritten ==>
          exists w | 0 <= w < |s.writes| :: s.writes[w].result == Some(true))
    && (attached && s.meta.None? ==> s.flushes != [])
  }

  lemma {:induction false} WrittenMeansSuccessAlways(cfg: Wiring, ss: seq<State>, tr: seq<Event>, i: nat)
    requires IsRun(cfg, ss, tr) && i <= |tr|
    ensures WrittenMeansSuccess(ss[i], ss[0].meta.Some?)
  {
    if i > 0 {
      WrittenMeansSuccessAlways(cfg, ss, tr, i - 1);
      assert Next(cfg, ss[i - 1], tr[i - 1], ss[i]);
      SuccessStaysNoted(cfg, ss[i - 1], tr[i - 1], ss[0].meta.Some?);
    }
  }

  lemma SuccessStaysNoted(cfg: Wiring, s: State, e: Event, attached: bool)
    requires Enabled(s, e) && WrittenMeansSuccess(s, attached)
    ensures WrittenMeansSuccess(Step(cfg, s, e), attached)
  {
    var t := Step(cfg, s, e);
    if t.meta.Some? && t.meta.value.outcomeWritten {
      if s.meta.Some? && s.meta.value.outcomeWritten {
        var w :| 0 <= w < |s.writes| && s.writes[w].result == Some(true);
        assert t.writes[w].result == Some(true);
      } else {
        assert t.writes[e.w].result == Some(true);
      }
    }
  }

  /** On a call with a row, the EndTaskFrame is queued when the grace task's own put has
      returned, or else after another put has succeeded or the caller has hung up. */
  lemma EndWaitsForTheRow(cfg: Wiring, ss: seq<State>, tr: seq<Event>, i: nat)
    requires IsRun(cfg, ss, tr) && cfg.writes && ss[0].meta.Some? && i < |tr|
    requires ss[i + 1].endFrames > ss[i].endFrames
    ensures tr[i].WriteReturns? || (tr[i].GraceOver? && (ss[i].flushes != [] ||
              exists w | 0 <= w < |ss[i].writes| :: ss[i].writes[w].result == Some(true)))
  {
    assert Next(cfg, ss[i], tr[i], ss[i + 1]);
    WrittenMeansSuccessAlways(cfg, ss, tr, i);
  }

  // --- the handlers and coroutines themselves ----------------------------------------------------

  /** The closure state of the handlers, the recorder's entry for the call, and the row. */
  class Session {
    const cfg: Wiring
    var ending: bool
    var invocations: seq<Invocation>
    var graces: seq<Grace>
    var writes: seq<Write>
    var flushes: seq<Flush>
    var meta: Option<Meta>
    var row: Option<Row>
    var endFrames: nat

    function View(): State
      reads this
    {
      State(ending, invocations, graces, writes, flushes, meta, row, endFrames)
    }

    constructor (cfg: Wiring, attached: bool)
      ensures Initial(View()) && this.cfg == cfg
      ensures meta.Some? <==> attached
    {
      this.cfg := cfg;
      ending, invocations, graces, writes, flushes := false, [], [], [], [];
      meta := if attached then Some(Meta(false, false)) else None;
      row, endFrames := None, 0;
    }

    method HandleEndCall()
      modifies this
      ensures View() == Step(cfg, old(View()), Invoked(EndCall))
    {
      if ending {
        invocations := invocations + [Declined];
        return;
      }
      ending := true;
      invocations := invocations + [Emitting(EndCall)];
    }

    method HandleTransfer()
      modifies this
      ensures View() == Step(cfg, old(View()), Invoked(Transfer))
    {
      if ending {
        invocations := invocations + [Declined];
        return;
      }
      ending := true;
      if cfg.marks {
        MarkTransfer();
      }
      invocations := invocations + [Emitting(Transfer)];
    }

    method MarkTransfer()
      modifies this`meta
      ensures meta == if old(meta).None? then None else Some(old(meta).value.(transferRequested := true))
    {
      if meta.None? {
        return;
      }
      meta := Some(meta.value.(transferRequested := true));
    }

    /** The rest of a winning handler, after its emit. */
    method CreateGraceTask(i: nat)
      requires Enabled(View(), EmitReturns(i))
      modifies this
      ensures View() == Step(cfg, old(View()), EmitReturns(i))
    {
      invocations := invocations[i := Handled(invocations[i].tool)];
      graces := graces + [Sleeping];
    }

    /** write_outcome_row up to the await of its put. */
    method WriteOutcomeRow(owner: Owner) returns (w: Option<nat>)
      modifies this`writes
      ensures (View(), w) == StartWrite(old(View()), owner)
    {
      if meta.None? || meta.value.outcomeWritten {
        return None;
      }
      w := Some(|writes|);
      writes := writes + [Write(owner, meta.value.transferRequested, false, None)];
    }

    /** _grace_then_end from the end of its sleep to its next await. */
    method GraceThenEnd(g: nat)
      requires Enabled(View(), GraceOver(g))
      modifies this
      ensures View() == Step(cfg, old(View()), GraceOver(g))
    {
      var w: Option<nat> := None;
      if cfg.writes {
        w := WriteOutcomeRow(ByGrace(g));
      }
      if w.None? {
        graces := graces[g := Ended(None)];
        endFrames := endFrames + 1;
        return;
      }
      graces := graces[g := Writing(w.value)];
    }

    /** flush_turns_and_summarize up to its first await. */
    method FlushTurns()
      requires Enabled(View(), HangUp)
      modifies this
      ensures View() == Step(cfg, old(View()), HangUp)
    {
      var f := |flushes|;
      var w := WriteOutcomeRow(ByFlush(f));
      if w.Some? {
        flushes := flushes + [AwaitingWrite(w.value)];
        return;
      }
      flushes := flushes + [Over];
      UpdateTurns(f);
    }

    /** flush_turns_and_summarize from the end of its write to the update of the turns. */
    method UpdateTurns(f: nat)
      requires f < |flushes|
      modifies this`flushes, this`meta
      ensures View() == PopMeta(old(View()), f)
    {
      var popped := meta;
      meta := None;
      if popped.None? {
        flushes := flushes[f := Over];
        return;
      }
      flushes := flushes[f := Updating];
    }

    /** The end of write_outcome_row's put, and what its caller does up to the next await. */
    method FinishWrite(w: nat, ok: bool)
      requires Enabled(View(), WriteReturns(w, ok))
      modifies this
      ensures View() == Step(cfg, old(View()), WriteReturns(w, ok))
    {
      writes := writes[w := writes[w].(result := Some(ok))];
      if ok && meta.Some? {
        meta := Some(meta.value.(outcomeWritten := true));
      }
      match writes[w].owner {
        case ByGrace(g) =>
          graces := graces[g := Ended(Some(w))];
          endFrames := endFrames + 1;
        case ByFlush(f) =>
          UpdateTurns(f);
      }
    }
  }
}
