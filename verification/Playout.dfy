/**
 The playout clock (bot.py, class BotPlayoutTracker): an estimate of the moment at
 which the bot's current turn stops being audible at the far end.

 The tracker sees three signals: a bot turn starts, a bot turn ends, audio bytes go
 out.  The reading of the clock is specified over the whole history of signals: the
 signal that "anchors" the current turn is the first start-or-audio signal after an
 end, and the clock counts exactly the bytes sent from that anchor on.
 */
module Playout {
  import opened Wrappers

  /** Seconds of PCM16 audio in `bytes`; 0 when the format is degenerate. */
  function PcmSecs(bytes: nat, rate: int, channels: int): real {
    var denom := rate * 2 * channels;
    if denom != 0 then bytes as real / denom as real else 0.0
  }

  /** A second is 2 bytes for each sample of each channel. */
  lemma PcmLength(bytes: nat, rate: int, channels: int)
    ensures rate != 0 && channels != 0 ==>
              PcmSecs(bytes, rate, channels) * (2 * rate * channels) as real == bytes as real
    ensures rate == 0 || channels == 0 ==> PcmSecs(bytes, rate, channels) == 0.0
  {
    var denom := rate * 2 * channels;
    assert denom == 2 * rate * channels;
    if rate != 0 && channels != 0 {
      NonZeroProduct(rate, channels);
      Quotient(bytes as real, denom as real);
    }
  }

  lemma NonZeroProduct(a: int, b: int)
    requires a != 0 && b != 0
    ensures a * 2 * b != 0
  {
  }

  lemma Quotient(x: real, d: real)
    requires d != 0.0
    ensures x / d * d == x
  {
  }

  datatype Clock = Clock(rate: int, channels: int,
                         startedAt: Option<real>, audioBytes: nat, turnActive: bool)
  {
    function AudioSecs(): real {
      PcmSecs(audioBytes, rate, channels)
    }

    function FinishAt(): Option<real> {
      if startedAt.None? then None else Some(startedAt.value + AudioSecs())
    }

    /** Seconds of bot audio still unplayed at `now`; not positive means done. */
    function Remaining(now: real): real {
      if FinishAt().None? then 0.0 else FinishAt().value - now
    }
  }

  datatype Signal = TurnStart(at: real) | TurnEnd | Audio(bytes: nat, at: real)

  function Fresh(rate: int, channels: int): Clock {
    Clock(rate, channels, None, 0, false)
  }

  function Anchored(c: Clock, now: real): Clock {
    if c.turnActive then c else c.(startedAt := Some(now), audioBytes := 0, turnActive := true)
  }

  function Advance(c: Clock, g: Signal): Clock {
    match g
    case TurnStart(at) => Anchored(c, at)
    case TurnEnd => c.(turnActive := false)
    case Audio(n, at) => var d := Anchored(c, at); d.(audioBytes := d.audioBytes + n)
  }

  function Reading(c: Clock, gs: seq<Signal>): Clock {
    if gs == [] then c else Advance(Reading(c, gs[..|gs| - 1]), gs[|gs| - 1])
  }

  // --- the reading, said over the whole history ------------------------------------

  /** Signal i opens a turn: it is not an end, and nothing is open before it. */
  predicate IsAnchor(gs: seq<Signal>, i: nat)
    requires i < |gs|
  {
    !gs[i].TurnEnd? && (i == 0 || gs[i - 1].TurnEnd?)
  }

  predicate IsLastAnchor(gs: seq<Signal>, i: nat)
    requires i < |gs|
  {
    IsAnchor(gs, i) && forall j | i < j < |gs| :: !IsAnchor(gs, j)
  }

  function AudioBytes(gs: seq<Signal>): nat {
    if gs == [] then 0
    else AudioBytes(gs[..|gs| - 1]) + (if gs[|gs| - 1].Audio? then gs[|gs| - 1].bytes else 0)
  }

  /** The clock runs from the last anchor's time and holds the bytes sent from there on,
      whether the anchor was a turn-start or a first audio frame. */
  lemma {:induction false} ClockMeasuresTheLastTurn(c: Clock, gs: seq<Signal>, a: nat)
    requires c == Fresh(c.rate, c.channels)
    requires a < |gs| && IsLastAnchor(gs, a)
    ensures Reading(c, gs).startedAt == Some(gs[a].at)
    ensures Reading(c, gs).audioBytes == AudioBytes(gs[a..])
    ensures Reading(c, gs).turnActive <==> !gs[|gs| - 1].TurnEnd?
  {
    var n := |gs| - 1;
    var before := gs[..n];
    if a < n {
      assert IsLastAnchor(before, a) by {
        assert IsAnchor(before, a);
        forall j | a < j < n ensures !IsAnchor(before, j) { assert !IsAnchor(gs, j); }
      }
      ClockMeasuresTheLastTurn(c, before, a);
      assert gs[a..][..n - a] == before[a..];
      assert !IsAnchor(gs, n);
    } else {
      assert gs[a..] == [gs[n]];
      assert AudioBytes(gs[a..][..0]) == 0;
      ActiveAfterNonEnd(c, before);
    }
  }

  lemma {:induction false} ActiveAfterNonEnd(c: Clock, gs: seq<Signal>)
    requires c == Fresh(c.rate, c.channels)
    ensures Reading(c, gs).turnActive <==> gs != [] && !gs[|gs| - 1].TurnEnd?
  {
    if gs != [] {
      ActiveAfterNonEnd(c, gs[..|gs| - 1]);
    }
  }

  /** The clock has no reading exactly while nothing but turn ends has been seen. */
  lemma {:induction false} NoReadingBeforeFirstTurn(c: Clock, gs: seq<Signal>)
    requires c == Fresh(c.rate, c.channels)
    ensures Reading(c, gs).FinishAt().None? <==> forall i | 0 <= i < |gs| :: gs[i].TurnEnd?
  {
    if gs != [] {
      NoReadingBeforeFirstTurn(c, gs[..|gs| - 1]);
      assert forall i | 0 <= i < |gs| - 1 :: gs[..|gs| - 1][i] == gs[i];
    }
  }

  lemma {:induction false} RunKeepsFormat(c: Clock, gs: seq<Signal>)
    ensures Reading(c, gs).rate == c.rate && Reading(c, gs).channels == c.channels
  {
    if gs != [] { RunKeepsFormat(c, gs[..|gs| - 1]); }
  }

  /** Only bytes of audio can make a turn that is played out by `later` audible again. */
  lemma OnlyAudioExtendsPlayout(c: Clock, g: Signal, now: real, later: real)
    requires g.TurnEnd? || g.at == now <= later
    requires !(g.Audio? && g.bytes > 0)
    requires c.Remaining(later) <= 0.0
    ensures Advance(c, g).Remaining(later) <= 0.0
  {
  }

  // --- against the far end ------------------------------------------------------------

  /** When the far end has played all audio of the first n signals, one frame after the other,
      each as soon as it has arrived and the frames before it are over. */
  function FifoEnd(gs: seq<Signal>, n: nat, rate: int, channels: int): Option<real>
    requires n <= |gs|
  {
    if n == 0 then None
    else
      var before := FifoEnd(gs, n - 1, rate, channels);
      match gs[n - 1]
      case Audio(bytes, at) =>
        var start := if before.Some? && before.value > at then before.value else at;
        Some(start + PcmSecs(bytes, rate, channels))
      case _ => before
  }

  predicate HasAudio(gs: seq<Signal>, a: nat, n: nat)
    requires a <= n <= |gs|
  {
    exists k | a <= k < n :: gs[k].Audio?
  }

  /** Signal k, if it is audio, arrives while the estimate for its turn is not over. */
  ghost predicate InTime(c: Clock, gs: seq<Signal>, k: nat)
    requires k < |gs|
  {
    var finish := Reading(c, gs[..k]).FinishAt();
    gs[k].Audio? ==> finish.Some? && gs[k].at <= finish.value
  }

  /** The far end is silent when the turn is anchored at a, and not again before signal n. */
  ghost predicate NoGapNoOverlap(c: Clock, gs: seq<Signal>, a: nat, n: nat)
    requires a < n <= |gs| && !gs[a].TurnEnd?
  {
    && (FifoEnd(gs, a, c.rate, c.channels).Some? ==> FifoEnd(gs, a, c.rate, c.channels).value <= gs[a].at)
    && forall k | a < k < n :: InTime(c, gs, k)
  }

  ghost predicate TimesForward(gs: seq<Signal>) {
    forall i, j | 0 <= i <= j < |gs| && !gs[i].TurnEnd? && !gs[j].TurnEnd? :: gs[i].at <= gs[j].at
  }

  lemma PcmSecsAdd(m: nat, n: nat, rate: int, channels: int)
    ensures PcmSecs(m + n, rate, channels) == PcmSecs(m, rate, channels) + PcmSecs(n, rate, channels)
  {
  }

  /** After n signals the estimate is not later than the far end's last sample, and is its time
      exactly when there was neither gap nor overlap. */
  ghost predicate Estimates(c: Clock, gs: seq<Signal>, a: nat, n: nat)
    requires a < n <= |gs| && !gs[a].TurnEnd?
  {
    var finish, end := Reading(c, gs[..n]).FinishAt(), FifoEnd(gs, n, c.rate, c.channels);
    && finish.Some?
    && (HasAudio(gs, a, n) ==> end.Some? && finish.value <= end.value)
    && (HasAudio(gs, a, n) ==> (finish == end <==> NoGapNoOverlap(c, gs, a, n)))
    && (!HasAudio(gs, a, n) ==> finish.value == gs[a].at && end == FifoEnd(gs, a, c.rate, c.channels))
  }

  lemma LastAnchorOfPrefix(gs: seq<Signal>, a: nat, n: nat)
    requires a < n - 1 < |gs| && IsLastAnchor(gs[..n], a)
    ensures IsLastAnchor(gs[..n - 1], a) && (gs[n - 1].TurnEnd? || !gs[n - 2].TurnEnd?)
  {
    var whole, before := gs[..n], gs[..n - 1];
    assert IsAnchor(whole, a) && !IsAnchor(whole, n - 1);
    assert IsAnchor(before, a);
    forall j | a < j < n - 1 ensures !IsAnchor(before, j) { assert !IsAnchor(whole, j); }
  }

  /** The estimate is never later than the end of playout at the far end, and it is that end
      exactly when the turn neither starts over the audio of an earlier one nor runs dry. */
  lemma {:induction false} EstimateExactlyWhen(c: Clock, gs: seq<Signal>, a: nat, n: nat)
    requires c == Fresh(c.rate, c.channels) && TimesForward(gs)
    requires a < n <= |gs| && IsLastAnchor(gs[..n], a)
    ensures !gs[a].TurnEnd? && Estimates(c, gs, a, n)
  {
    assert IsAnchor(gs[..n], a);
    RunKeepsFormat(c, gs[..n]);
    if a < n - 1 {
      LastAnchorOfPrefix(gs, a, n);
      ClockMeasuresTheLastTurn(c, gs[..n - 1], a);
      RunKeepsFormat(c, gs[..n - 1]);
      EstimateExactlyWhen(c, gs, a, n - 1);
      OneMoreSignal(c, gs, a, n);
    } else {
      ClockMeasuresTheLastTurn(c, gs[..n], a);
      FirstSignal(c, gs, a);
    }
  }

  lemma FirstSignal(c: Clock, gs: seq<Signal>, a: nat)
    requires a < |gs| && !gs[a].TurnEnd?
    requires var clock := Reading(c, gs[..a + 1]);
             && clock.startedAt == Some(gs[a].at) && clock.audioBytes == AudioBytes(gs[..a + 1][a..])
             && clock.rate == c.rate && clock.channels == c.channels
    ensures Estimates(c, gs, a, a + 1)
  {
    assert gs[..a + 1][a..] == [gs[a]] && [gs[a]][..0] == [];
    assert AudioBytes([gs[a]]) == if gs[a].Audio? then gs[a].bytes else 0;
    assert HasAudio(gs, a, a + 1) <==> gs[a].Audio?;
  }

  lemma OneMoreSignal(c: Clock, gs: seq<Signal>, a: nat, n: nat)
    requires a + 1 < n <= |gs| && !gs[a].TurnEnd? && TimesForward(gs)
    requires var clock := Reading(c, gs[..n - 1]);
             && clock.startedAt.Some? && clock.rate == c.rate && clock.channels == c.channels
             && (clock.turnActive || gs[n - 1].TurnEnd?)
    requires Estimates(c, gs, a, n - 1)
    ensures Estimates(c, gs, a, n)
  {
    var clock, g := Reading(c, gs[..n - 1]), gs[n - 1];
    assert gs[..n][..n - 1] == gs[..n - 1];
    assert Reading(c, gs[..n]) == Advance(clock, g);
    if g.Audio? {
      PcmSecsAdd(clock.audioBytes, g.bytes, c.rate, c.channels);
      assert HasAudio(gs, a, n);
    }
    assert NoGapNoOverlap(c, gs, a, n) <==> NoGapNoOverlap(c, gs, a, n - 1) && InTime(c, gs, n - 1);
  }

  /** The tracker itself. */
  class BotPlayoutTracker {
    const rate: int
    const channels: int
    var startedAt: Option<real>
    var audioBytes: nat
    var turnActive: bool

    function View(): Clock
      reads this
    {
      Clock(rate, channels, startedAt, audioBytes, turnActive)
    }

    constructor (rate: int, channels: int)
      ensures View() == Fresh(rate, channels)
    {
      this.rate, this.channels := rate, channels;
      startedAt, audioBytes, turnActive := None, 0, false;
    }

    method OnBotTurnStart(now: real)
      modifies this
      ensures View() == Advance(old(View()), TurnStart(now))
    {
      if !turnActive {
        startedAt := Some(now);
        audioBytes := 0;
        turnActive := true;
      }
    }

    method OnBotTurnEnd()
      modifies this
      ensures View() == Advance(old(View()), TurnEnd)
    {
      turnActive := false;
    }

    method AddAudio(n: nat, now: real)
      modifies this
      ensures View() == Advance(old(View()), Audio(n, now))
    {
      if !turnActive {
        startedAt := Some(now);
        audioBytes := 0;
        turnActive := true;
      }
      audioBytes := audioBytes + n;
    }
  }
}
