/**
 The frames an observer sees.  A frame is pushed across many processor boundaries, so an
 observer meets the same frame, with the same id, many times.
 */
module Frames {

  datatype Kind =
    | UserStarted
    | UserStopped
    | VadUserStarted
    | VadUserStopped
    | InterimTranscription(text: string)
    | Transcription(text: string)
    | LlmStart
    | LlmText(text: string)
    | LlmEnd
    | TtsStarted
    | TtsStopped
    | TtsAudio(bytes: nat)
    | BotStarted
    | BotStopped
    | OtherFrame

  datatype Frame = Frame(id: int, kind: Kind)

  datatype Crossing = Crossing(frame: Frame, at: real)

  /** An id names one frame. */
  ghost predicate FrameIdentity(tr: seq<Crossing>) {
    forall i, j | 0 <= i < |tr| && 0 <= j < |tr| && tr[i].frame.id == tr[j].frame.id ::
      tr[i].frame == tr[j].frame
  }

  /** Crossing i is the first one of its frame. */
  predicate FirstCrossing(tr: seq<Crossing>, i: nat)
    requires i < |tr|
  {
    forall k | 0 <= k < i :: tr[k].frame.id != tr[i].frame.id
  }

  /** The trace in which every frame crosses once, at its first crossing. */
  function Distinct(tr: seq<Crossing>): seq<Crossing> {
    if tr == [] then []
    else
      var n := |tr| - 1;
      Distinct(tr[..n]) + (if FirstCrossing(tr, n) then [tr[n]] else [])
  }
}
