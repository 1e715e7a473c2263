/**
 The event broadcaster (bot.py, class EventBroadcaster): an observer that turns frames
 into monitor events, persists the turns of the dialogue, and feeds the playout clock.

 It reads a stream in which every frame occurs many times.  Its output is specified over
 the stream in which every frame occurs once.
 */
module EventBroadcaster {
  import opened Wrappers
  import opened Frames
  import opened Playout

  datatype Event =
    | UserSpeaking(value: bool)
    | AsrPartial(text: string)
    | AsrFinal(text: string)
    | LlmStarted
    | LlmDelta(text: string)
    | LlmEnded(text: string)
    | TtsStart
    | TtsEnd
    | BotSpeaking(value: bool)

  datatype Stamped = Stamped(event: Event, at: real)

  datatype Turn = Turn(byUser: bool, text: string, at: real)

  /** Whether a history recorder and a playout tracker are attached. */
  datatype Sinks = Sinks(history: bool, playout: bool)

  datatype State = State(seen: set<int>, llmBuffer: string, events: seq<Stamped>, turns: seq<Turn>, clock: Clock)

  // --- one crossing -----------------------------------------------------------------

  predicate Watched(k: Kind) {
    !k.TtsAudio? && !k.VadUserStarted? && !k.VadUserStopped? && !k.OtherFrame?
  }

  function SignalOf(c: Crossing): Option<Signal> {
    match c.frame.kind
    case TtsAudio(n) => Some(Audio(n, c.at))
    case BotStarted => Some(TurnStart(c.at))
    case BotStopped => Some(TurnEnd)
    case UserStarted => Some(TurnEnd)
    case _ => None
  }

  /** The event of a watched frame, given the text of the reply so far. */
  function EventOf(k: Kind, reply: string): Event
    requires Watched(k)
  {
    match k
    case UserStarted => UserSpeaking(true)
    case UserStopped => UserSpeaking(false)
    case InterimTranscription(t) => AsrPartial(t)
    case Transcription(t) => AsrFinal(t)
    case LlmStart => LlmStarted
    case LlmText(t) => LlmDelta(t)
    case LlmEnd => LlmEnded(reply)
    case TtsStarted => TtsStart
    case TtsStopped => TtsEnd
    case BotStarted => BotSpeaking(true)
    case BotStopped => BotSpeaking(false)
  }

  function TurnsOf(e: Stamped): seq<Turn> {
    match e.event
    case AsrFinal(t) => [Turn(true, t, e.at)]
    case LlmEnded(t) => [Turn(false, t, e.at)]
    case _ => []
  }

  function NextReply(reply: string, k: Kind): string {
    match k
    case LlmStart => ""
    case LlmEnd => ""
    case LlmText(t) => reply + t
    case _ => reply
  }

  function NextClock(sinks: Sinks, clock: Clock, c: Crossing): Clock {
    if sinks.playout && SignalOf(c).Some? then Advance(clock, SignalOf(c).value) else clock
  }

  function Step(sinks: Sinks, s: State, c: Crossing): State {
    var k, id := c.frame.kind, c.frame.id;
    if id in s.seen then s
    else if Watched(k) then
      var e := Stamped(EventOf(k, s.llmBuffer), c.at);
      State(s.seen + {id}, NextReply(s.llmBuffer, k), s.events + [e],
            s.turns + (if sinks.history then TurnsOf(e) else []), NextClock(sinks, s.clock, c))
    else if k.TtsAudio? && sinks.playout then
      s.(seen := s.seen + {id}, clock := NextClock(sinks, s.clock, c))
    else s
  }

  function Run(sinks: Sinks, s: State, tr: seq<Crossing>): State {
    if tr == [] then s else Step(sinks, Run(sinks, s, tr[..|tr| - 1]), tr[|tr| - 1])
  }

  predicate Initial(s: State) {
    s == State({}, "", [], [], Fresh(s.clock.rate, s.clock.channels))
  }

  // --- the output, said over the distinct frames ---------------------------------------

  /** The text deltas since the last start or end of a reply. */
  function Reply(d: seq<Crossing>): string {
    if d == [] then "" else NextReply(Reply(d[..|d| - 1]), d[|d| - 1].frame.kind)
  }

  function Events(d: seq<Crossing>): seq<Stamped> {
    if d == [] then []
    else
      var n := |d| - 1;
      Events(d[..n]) + (if Watched(d[n].frame.kind)
                        then [Stamped(EventOf(d[n].frame.kind, Reply(d[..n])), d[n].at)] else [])
  }

  function Turns(es: seq<Stamped>): seq<Turn> {
    if es == [] then [] else Turns(es[..|es| - 1]) + TurnsOf(es[|es| - 1])
  }

  function Signals(d: seq<Crossing>): seq<Signal> {
    if d == [] then []
    else
      var n := |d| - 1;
      Signals(d[..n]) + (if SignalOf(d[n]).Some? then [SignalOf(d[n]).value] else [])
  }

  /** The ids remembered are those of the frames that had an effect. */
  lemma {:induction false} SeenAreTheEffective(sinks: Sinks, s0: State, tr: seq<Crossing>, id: int)
    requires Initial(s0) && FrameIdentity(tr)
    ensures id in Run(sinks, s0, tr).seen <==>
            exists i | 0 <= i < |tr| :: tr[i].frame.id == id
              && (Watched(tr[i].frame.kind) || (tr[i].frame.kind.TtsAudio? && sinks.playout))
  {
    if tr != [] {
      var n := |tr| - 1;
      SeenAreTheEffective(sinks, s0, tr[..n], id);
      assert forall i | 0 <= i < n :: tr[..n][i] == tr[i];
      if tr[n].frame.id == id {
        assert forall i | 0 <= i < n && tr[i].frame.id == id :: tr[i].frame == tr[n].frame;
      }
    }
  }

  /** On any trace with repeated crossings, the events, the turns and the playout clock are
      those of the distinct frames. */
  lemma {:induction false} BroadcastsDistinctFrames(sinks: Sinks, s0: State, tr: seq<Crossing>)
    requires Initial(s0) && FrameIdentity(tr)
    ensures var s, d := Run(sinks, s0, tr), Distinct(tr);
            && s.events == Events(d)
            && s.llmBuffer == Reply(d)
            && s.turns == (if sinks.history then Turns(Events(d)) else [])
            && s.clock == (if sinks.playout then Reading(s0.clock, Signals(d)) else s0.clock)
  {
    if tr != [] {
      var n := |tr| - 1;
      var s, d := Run(sinks, s0, tr[..n]), Distinct(tr[..n]);
      BroadcastsDistinctFrames(sinks, s0, tr[..n]);
      SeenAreTheEffective(sinks, s0, tr[..n], tr[n].frame.id);
      if FirstCrossing(tr, n) {
        assert tr[n].frame.id !in s.seen;
        assert Distinct(tr) == d + [tr[n]];
        assert (d + [tr[n]])[..|d|] == d;
        OneMoreFrame(sinks, s0, s, d, tr[n]);
      } else {
        assert Distinct(tr) == d;
        var k :| 0 <= k < n && tr[k].frame.id == tr[n].frame.id;
        assert tr[..n][k].frame == tr[n].frame;
      }
    }
  }

  lemma EventsOfOneMore(d: seq<Crossing>, c: Crossing)
    ensures Reply(d + [c]) == NextReply(Reply(d), c.frame.kind)
    ensures Events(d + [c]) == if Watched(c.frame.kind)
                               then Events(d) + [Stamped(EventOf(c.frame.kind, Reply(d)), c.at)] else Events(d)
  {
    assert (d + [c])[..|d|] == d;
  }

  lemma TurnsOfOneMore(es: seq<Stamped>, e: Stamped)
    ensures Turns(es + [e]) == Turns(es) + TurnsOf(e)
  {
    assert (es + [e])[..|es|] == es;
  }

  lemma ClockAfterOneMore(clock: Clock, d: seq<Crossing>, c: Crossing)
    ensures Reading(clock, Signals(d + [c])) == if SignalOf(c).None? then Reading(clock, Signals(d))
                                                else Advance(Reading(clock, Signals(d)), SignalOf(c).value)
  {
    assert (d + [c])[..|d|] == d;
    if SignalOf(c).Some? {
      var gs := Signals(d);
      assert (gs + [SignalOf(c).value])[..|gs|] == gs;
    } else {
      assert Signals(d + [c]) == Signals(d);
    }
  }

  lemma NewEvents(sinks: Sinks, s: State, d: seq<Crossing>, c: Crossing)
    requires c.frame.id !in s.seen && s.events == Events(d) && s.llmBuffer == Reply(d)
    ensures Step(sinks, s, c).events == Events(d + [c]) && Step(sinks, s, c).llmBuffer == Reply(d + [c])
  {
    EventsOfOneMore(d, c);
  }

  lemma NewTurns(sinks: Sinks, s: State, d: seq<Crossing>, c: Crossing)
    requires c.frame.id !in s.seen && s.llmBuffer == Reply(d)
    requires s.turns == (if sinks.history then Turns(Events(d)) else [])
    ensures Step(sinks, s, c).turns == (if sinks.history then Turns(Events(d + [c])) else [])
  {
    EventsOfOneMore(d, c);
    if Watched(c.frame.kind) {
      TurnsOfOneMore(Events(d), Stamped(EventOf(c.frame.kind, Reply(d)), c.at));
    }
  }

  lemma NewClock(sinks: Sinks, s: State, c: Crossing)
    requires c.frame.id !in s.seen
    ensures Step(sinks, s, c).clock == NextClock(sinks, s.clock, c)
  {
  }

  lemma OneMoreFrame(sinks: Sinks, s0: State, s: State, d: seq<Crossing>, c: Crossing)
    requires c.frame.id !in s.seen
    requires s.events == Events(d) && s.llmBuffer == Reply(d)
    requires s.turns == (if sinks.history then Turns(Events(d)) else [])
    requires s.clock == (if sinks.playout then Reading(s0.clock, Signals(d)) else s0.clock)
    ensures var t, e := Step(sinks, s, c), d + [c];
            && t.events == Events(e)
            && t.llmBuffer == Reply(e)
            && t.turns == (if sinks.history then Turns(Events(e)) else [])
            && t.clock == (if sinks.playout then Reading(s0.clock, Signals(e)) else s0.clock)
  {
    NewEvents(sinks, s, d, c);
    NewTurns(sinks, s, d, c);
    NewClock(sinks, s, c);
    ClockAfterOneMore(s0.clock, d, c);
  }

  // --- what that means -------------------------------------------------------------------

  function Texts(d: seq<Crossing>): string {
    if d == [] then ""
    else Texts(d[..|d| - 1]) + (if d[|d| - 1].frame.kind.LlmText? then d[|d| - 1].frame.kind.text else "")
  }

  predicate ReplyBoundary(k: Kind) {
    k.LlmStart? || k.LlmEnd?
  }

  /** The text of a reply is the concatenation of the deltas since the last start or end
      (from the beginning, b == 0, when there is none). */
  lemma {:induction false} ReplyIsTheDeltas(d: seq<Crossing>, b: nat)
    requires b <= |d|
    requires b == 0 || ReplyBoundary(d[b - 1].frame.kind)
    requires forall k | b <= k < |d| :: !ReplyBoundary(d[k].frame.kind)
    ensures Reply(d) == Texts(d[b..])
  {
    if b < |d| {
      var n := |d| - 1;
      ReplyIsTheDeltas(d[..n], b);
      assert d[b..][..n - b] == d[..n][b..];
    } else {
      assert d[b..] == [];
    }
  }

  /** Every llm_end event carries the concatenation of the deltas of its own reply. */
  lemma LlmEndCarriesTheWholeReply(sinks: Sinks, s0: State, tr: seq<Crossing>, b: nat)
    requires Initial(s0) && FrameIdentity(tr)
    requires Distinct(tr) != [] && Distinct(tr)[|Distinct(tr)| - 1].frame.kind.LlmEnd?
    requires var d := Distinct(tr);
             && b < |d|
             && (b == 0 || ReplyBoundary(d[b - 1].frame.kind))
             && forall k | b <= k < |d| - 1 :: !ReplyBoundary(d[k].frame.kind)
    ensures var d, es := Distinct(tr), Run(sinks, s0, tr).events;
            es != [] && es[|es| - 1].event == LlmEnded(Texts(d[b..|d| - 1]))
  {
    var d := Distinct(tr);
    var n := |d| - 1;
    BroadcastsDistinctFrames(sinks, s0, tr);
    ReplyIsTheDeltas(d[..n], b);
    assert d[..n][b..] == d[b..n];
  }

  /** The byte count of the clock is the sum over the distinct audio frames since the anchor
      of the turn, whichever of audio and bot-start came first. */
  lemma BytesOfTheCurrentTurn(sinks: Sinks, s0: State, tr: seq<Crossing>, a: nat)
    requires Initial(s0) && FrameIdentity(tr) && sinks.playout
    requires a < |Signals(Distinct(tr))| && IsLastAnchor(Signals(Distinct(tr)), a)
    ensures var gs, clock := Signals(Distinct(tr)), Run(sinks, s0, tr).clock;
            clock.audioBytes == AudioBytes(gs[a..]) && clock.startedAt == Some(gs[a].at)
  {
    BroadcastsDistinctFrames(sinks, s0, tr);
    ClockMeasuresTheLastTurn(s0.clock, Signals(Distinct(tr)), a);
  }

  // --- what the monitor, the history and the clock are told --------------------------------

  /** The frames that are told to the monitor. */
  predicate IsTold(k: Kind) {
    || k == UserStarted || k == UserStopped || k.InterimTranscription? || k.Transcription?
    || k == LlmStart || k.LlmText? || k == LlmEnd
    || k == TtsStarted || k == TtsStopped || k == BotStarted || k == BotStopped
  }

  function Told(d: seq<Crossing>): (r: seq<Crossing>)
    ensures forall i | 0 <= i < |r| :: IsTold(r[i].frame.kind)
  {
    if d == [] then []
    else
      var n := |d| - 1;
      Told(d[..n]) + (if IsTold(d[n].frame.kind) then [d[n]] else [])
  }

  /** What a reader of the monitor takes an event for. */
  function KindOf(e: Event): Kind {
    match e
    case UserSpeaking(value) => if value then UserStarted else UserStopped
    case BotSpeaking(value) => if value then BotStarted else BotStopped
    case AsrPartial(t) => InterimTranscription(t)
    case AsrFinal(t) => Transcription(t)
    case LlmDelta(t) => LlmText(t)
    case LlmStarted => LlmStart
    case LlmEnded(_) => LlmEnd
    case TtsStart => TtsStarted
    case TtsEnd => TtsStopped
  }

  lemma EventTellsTheFrame(k: Kind, reply: string)
    ensures Watched(k) <==> IsTold(k)
    ensures IsTold(k) ==> KindOf(EventOf(k, reply)) == k
  {
  }

  /** The monitor's events can be read back: they give, in order and with their times, exactly the
      distinct frames that are told. */
  lemma {:induction false} EventsTellTheFrames(d: seq<Crossing>)
    ensures |Events(d)| == |Told(d)|
    ensures forall i | 0 <= i < |Told(d)| ::
              KindOf(Events(d)[i].event) == Told(d)[i].frame.kind && Events(d)[i].at == Told(d)[i].at
  {
    if d != [] {
      var n := |d| - 1;
      EventsTellTheFrames(d[..n]);
      EventTellsTheFrame(d[n].frame.kind, Reply(d[..n]));
    }
  }

  /** The place behind the last start or end of a reply. */
  function ReplyBegins(d: seq<Crossing>): (b: nat)
    ensures b <= |d| && (b == 0 || d[b - 1].frame.kind == LlmStart || d[b - 1].frame.kind == LlmEnd)
    ensures forall k | b <= k < |d| :: d[k].frame.kind != LlmStart && d[k].frame.kind != LlmEnd
  {
    if d == [] then 0
    else
      var n := |d| - 1;
      if d[n].frame.kind == LlmStart || d[n].frame.kind == LlmEnd then |d| else ReplyBegins(d[..n])
  }

  /** What the frame adds to the dialogue if it ends this reply. */
  function Lines(c: Crossing, reply: string): seq<Turn> {
    if c.frame.kind.Transcription? then [Turn(true, c.frame.kind.text, c.at)]
    else if c.frame.kind.LlmEnd? then [Turn(false, reply, c.at)]
    else []
  }

  /** The dialogue: final transcripts by the user, replies, from the deltas, by the bot. */
  function Dialogue(d: seq<Crossing>): seq<Turn> {
    if d == [] then []
    else
      var n := |d| - 1;
      var before := d[..n];
      Dialogue(before) + Lines(d[n], Texts(before[ReplyBegins(before)..]))
  }

  lemma OneMoreTurn(d: seq<Crossing>, c: Crossing)
    ensures Turns(Events(d + [c])) == Turns(Events(d)) + Lines(c, Reply(d))
  {
    EventsOfOneMore(d, c);
    if Watched(c.frame.kind) {
      TurnsOfOneMore(Events(d), Stamped(EventOf(c.frame.kind, Reply(d)), c.at));
    }
  }

  /** The history holds the dialogue. */
  lemma {:induction false} TurnsAreTheDialogue(d: seq<Crossing>)
    ensures Turns(Events(d)) == Dialogue(d)
  {
    if d != [] {
      var n := |d| - 1;
      TurnsAreTheDialogue(d[..n]);
      assert d == d[..n] + [d[n]];
      OneMoreTurn(d[..n], d[n]);
      ReplyIsTheDeltas(d[..n], ReplyBegins(d[..n]));
    }
  }

  /** The signal tells the clock of the frame: bytes of audio, or that a bot turn starts or ends. */
  predicate TellsClock(g: Signal, c: Crossing) {
    || (c.frame.kind.TtsAudio? && g == Audio(c.frame.kind.bytes, c.at))
    || (c.frame.kind == BotStarted && g == TurnStart(c.at))
    || ((c.frame.kind == BotStopped || c.frame.kind == UserStarted) && g == TurnEnd)
  }

  predicate IsHeard(k: Kind) {
    k.TtsAudio? || k == BotStarted || k == BotStopped || k == UserStarted
  }

  function Heard(d: seq<Crossing>): seq<Crossing> {
    if d == [] then []
    else
      var n := |d| - 1;
      Heard(d[..n]) + (if IsHeard(d[n].frame.kind) then [d[n]] else [])
  }

  /** The clock is told of every distinct frame of audio, every start and stop of the bot and every
      start of the user, in order, and of nothing else. */
  lemma {:induction false} SignalsAreTheFrames(d: seq<Crossing>)
    ensures |Signals(d)| == |Heard(d)|
    ensures forall i | 0 <= i < |Heard(d)| :: TellsClock(Signals(d)[i], Heard(d)[i])
  {
    if d != [] { SignalsAreTheFrames(d[..|d| - 1]); }
  }

  // --- the observer -------------------------------------------------------------------

  class Broadcaster {
    const sinks: Sinks
    const playout: BotPlayoutTracker
    var seen: set<int>
    var llmBuffer: string
    var events: seq<Stamped>
    var turns: seq<Turn>

    function View(): State
      reads this, playout
    {
      State(seen, llmBuffer, events, turns, playout.View())
    }

    constructor (sinks: Sinks, playout: BotPlayoutTracker)
      requires playout.View() == Fresh(playout.rate, playout.channels)
      ensures Initial(View()) && this.sinks == sinks && this.playout == playout
    {
      this.sinks, this.playout := sinks, playout;
      seen, llmBuffer, events, turns := {}, "", [], [];
    }

    method Send(e: Event, now: real)
      modifies this`events, this`turns
      ensures events == old(events) + [Stamped(e, now)]
      ensures turns == old(turns) + (if sinks.history then TurnsOf(Stamped(e, now)) else [])
    {
      events := events + [Stamped(e, now)];
      if sinks.history {
        match e {
          case AsrFinal(t) => turns := turns + [Turn(true, t, now)];
          case LlmEnded(t) => turns := turns + [Turn(false, t, now)];
          case _ =>
        }
      }
    }

    method OnPushFrame(c: Crossing)
      modifies this, playout
      ensures View() == Step(sinks, old(View()), c)
    {
      var k, id, now := c.frame.kind, c.frame.id, c.at;
      if sinks.playout && k.TtsAudio? {
        if id !in seen {
          seen := seen + {id};
          playout.AddAudio(k.bytes, now);
        }
      }
      if !Watched(k) { return; }
      if id in seen { return; }
      seen := seen + {id};
      if sinks.playout && k.BotStarted? {
        playout.OnBotTurnStart(now);
      }
      if sinks.playout && (k.BotStopped? || k.UserStarted?) {
        playout.OnBotTurnEnd();
      }
      match k {
        case UserStarted => Send(UserSpeaking(true), now);
        case UserStopped => Send(UserSpeaking(false), now);
        case InterimTranscription(t) => Send(AsrPartial(t), now);
        case Transcription(t) => Send(AsrFinal(t), now);
        case LlmStart =>
          llmBuffer := "";
          Send(LlmStarted, now);
        case LlmText(t) =>
          llmBuffer := llmBuffer + t;
          Send(LlmDelta(t), now);
        case LlmEnd =>
          Send(LlmEnded(llmBuffer), now);
          llmBuffer := "";
        case TtsStarted => Send(TtsStart, now);
        case TtsStopped => Send(TtsEnd, now);
        case BotStarted => Send(BotSpeaking(true), now);
        case BotStopped => Send(BotSpeaking(false), now);
      }
    }
  }
}
