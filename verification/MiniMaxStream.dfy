/**
 The streaming body of SimpleMiniMaxTTSService.run_tts (bot.py): chunks in, frames out.

 Decoding a block (UTF-8, JSON and hex) is a parameter.  The frames are specified from
 the bytes of the stream alone, so they cannot depend on how the network cut them up.
 */
module MiniMaxStream {
  import opened BlockSplitter

  /** What the code finds in a block after the marker. */
  datatype Decoded =
    | NotJson
    | NotAnObject   // valid JSON on which reading the fields raises
    | Message(statusCode: int, statusMsg: string, extraInfo: bool, pcm: seq<byte>)
      // pcm is empty when the audio is missing, empty or not hex

  datatype Frame = AudioFrame(audio: seq<byte>) | ErrorFrame(error: string)

  datatype Output = Output(frames: seq<Frame>, stopped: bool)

  const DEFAULT_CHUNK: nat := 960

  // --- frames as a function of the stream ---------------------------------------------

  /** The PCM of one block in pieces of n bytes, the last one possibly shorter. */
  function Slices(pcm: seq<byte>, n: nat): seq<seq<byte>>
    requires n > 0
  {
    if pcm == [] then []
    else if |pcm| <= n then [pcm]
    else [pcm[..n]] + Slices(pcm[n..], n)
  }

  function AudioFrames(slices: seq<seq<byte>>): (r: seq<Frame>) {
    seq(|slices|, k requires 0 <= k < |slices| => AudioFrame(slices[k]))
  }

  function OfBlock(d: Decoded, n: nat): Output
    requires n > 0
  {
    match d
    case NotJson => Output([], false)
    case NotAnObject => Output([ErrorFrame("MiniMax stream failed")], true)
    case Message(code, msg, extra, pcm) =>
      if code != 0 then Output([ErrorFrame("MiniMax error: " + msg)], true)
      else if extra then Output([], false)
      else Output(AudioFrames(Slices(pcm, n)), false)
  }

  /** The output of a list of blocks ends with the first block that is an error. */
  function OfBlocks(blocks: seq<seq<byte>>, decode: seq<byte> -> Decoded, n: nat): Output
    requires n > 0
  {
    if blocks == [] then Output([], false)
    else
      var before := OfBlocks(blocks[..|blocks| - 1], decode, n);
      if before.stopped then before
      else
        var last := OfBlock(decode(blocks[|blocks| - 1]), n);
        Output(before.frames + last.frames, last.stopped)
  }

  /** A stream that breaks off adds one error frame, unless an error ended it before. */
  function OfStream(stream: seq<byte>, broken: bool, decode: seq<byte> -> Decoded, n: nat): seq<Frame>
    requires n > 0
  {
    var out := OfBlocks(Blocks(stream), decode, n);
    if broken && !out.stopped then out.frames + [ErrorFrame("MiniMax stream failed")] else out.frames
  }

  /** Slicing neither drops nor repeats audio, and only the last slice may be short. */
  lemma {:induction false} SlicesConcatenateToThePcm(pcm: seq<byte>, n: nat)
    requires n > 0
    ensures var r := Slices(pcm, n);
            && Flatten(r) == pcm
            && forall k | 0 <= k < |r| :: 0 < |r[k]| <= n && (k < |r| - 1 ==> |r[k]| == n)
  {
    if |pcm| > n {
      var r := Slices(pcm[n..], n);
      SlicesConcatenateToThePcm(pcm[n..], n);
      FlattenCons(pcm[..n], r);
      assert pcm[..n] + pcm[n..] == pcm;
    } else if pcm != [] {
      assert Flatten([pcm]) == pcm;
    }
  }

  lemma {:induction false} FlattenCons<T>(a: seq<T>, r: seq<seq<T>>)
    ensures Flatten([a] + r) == a + Flatten(r)
  {
    if r == [] {
      assert Flatten([a]) == a;
    } else {
      var n := |r| - 1;
      FlattenCons(a, r[..n]);
      assert ([a] + r)[..n + 1] == [a] + r[..n];
    }
  }

  /** Output is put out in the order of the blocks, up to the first error. */
  lemma {:induction false} OutputConcatenates(a: seq<seq<byte>>, b: seq<seq<byte>>, decode: seq<byte> -> Decoded, n: nat)
    requires n > 0
    ensures var oa, ob := OfBlocks(a, decode, n), OfBlocks(b, decode, n);
            OfBlocks(a + b, decode, n) ==
            if oa.stopped then oa else Output(oa.frames + ob.frames, ob.stopped)
  {
    if b == [] {
      assert a + b == a;
    } else {
      var k := |b| - 1;
      OutputConcatenates(a, b[..k], decode, n);
      assert (a + b)[..|a| + k] == a + b[..k] && (a + b)[|a| + k] == b[k];
      var oa, ob := OfBlocks(a, decode, n), OfBlocks(b[..k], decode, n);
      var last := OfBlock(decode(b[k]), n);
      assert oa.frames + (ob.frames + last.frames) == oa.frames + ob.frames + last.frames;
    }
  }

  lemma {:induction false} PiecesGrow(s: seq<byte>, p: seq<nat>, m: nat, n: nat)
    requires Ascending(p, 0, |s|) && m <= n && (n == 0 || n < |p|)
    ensures Pieces(s, p, m) <= Pieces(s, p, n)
  {
    if m < n { PiecesGrow(s, p, m, n - 1); }
  }

  lemma BlocksGrow(s: seq<byte>, more: seq<byte>)
    ensures Blocks(s) <= Blocks(s + more)
  {
    var p, q := Occurrences(s, 0), Occurrences(s + more, 0);
    MoreBytesMoreOccurrences(s, more, 0);
    MoreBytesSamePieces(s, more, p, q, Gaps(p));
    PiecesGrow(s + more, q, Gaps(p), Gaps(q));
  }

  /** What has been put out is never taken back by further bytes. */
  lemma FramesOnlyGrow(s: seq<byte>, more: seq<byte>, decode: seq<byte> -> Decoded, n: nat)
    requires n > 0
    ensures OfStream(s, false, decode, n) <= OfStream(s + more, false, decode, n)
  {
    BlocksGrow(s, more);
    var a, b := Blocks(s), Blocks(s + more);
    assert b == a + b[|a|..];
    OutputConcatenates(a, b[|a|..], decode, n);
  }

  // --- what a listener gets -------------------------------------------------------------

  /** A status code that is not 0, or JSON that is not an object. */
  predicate IsError(d: Decoded) {
    d.NotAnObject? || (d.Message? && d.statusCode != 0)
  }

  /** The audio that a block without an error carries: none in the summary at the end. */
  function PcmOf(d: Decoded): seq<byte> {
    if d.Message? && !d.extraInfo then d.pcm else []
  }

  function PcmOfBlocks(blocks: seq<seq<byte>>, decode: seq<byte> -> Decoded): seq<byte> {
    if blocks == [] then []
    else PcmOfBlocks(blocks[..|blocks| - 1], decode) + PcmOf(decode(blocks[|blocks| - 1]))
  }

  /** The index of the first error, |blocks| if there is none. */
  function FirstError(blocks: seq<seq<byte>>, decode: seq<byte> -> Decoded): (k: nat)
    ensures k <= |blocks| && (k < |blocks| ==> IsError(decode(blocks[k])))
    ensures forall i | 0 <= i < k :: !IsError(decode(blocks[i]))
  {
    if blocks == [] then 0
    else
      var k := FirstError(blocks[..|blocks| - 1], decode);
      if k < |blocks| - 1 || IsError(decode(blocks[|blocks| - 1])) then k else |blocks|
  }

  /** Frames of audio, none empty and none longer than n. */
  ghost predicate IsAudio(frames: seq<Frame>, n: nat) {
    forall k | 0 <= k < |frames| :: frames[k].AudioFrame? && 0 < |frames[k].audio| <= n
  }

  function AudioOf(frames: seq<Frame>): seq<byte> {
    if frames == [] then []
    else
      var last := frames[|frames| - 1];
      AudioOf(frames[..|frames| - 1]) + (if last.AudioFrame? then last.audio else [])
  }

  /** The frames are audio that joins to pcm and, if something failed, one error frame at the end. */
  ghost predicate Plays(frames: seq<Frame>, pcm: seq<byte>, failed: bool, n: nat) {
    var m := if failed then |frames| - 1 else |frames|;
    && 0 <= m && IsAudio(frames[..m], n) && AudioOf(frames[..m]) == pcm
    && (failed ==> frames[m].ErrorFrame?)
  }

  lemma {:induction false} AudioJoins(a: seq<Frame>, b: seq<Frame>)
    ensures AudioOf(a + b) == AudioOf(a) + AudioOf(b)
  {
    if b == [] {
      assert a + b == a;
    } else {
      AudioJoins(a, b[..|b| - 1]);
      assert (a + b)[..|a + b| - 1] == a + b[..|b| - 1];
    }
  }

  lemma {:induction false} SlicesPlay(pcm: seq<byte>, n: nat)
    requires n > 0
    ensures IsAudio(AudioFrames(Slices(pcm, n)), n) && AudioOf(AudioFrames(Slices(pcm, n))) == pcm
  {
    SlicesConcatenateToThePcm(pcm, n);
    AudioOfSlices(Slices(pcm, n));
  }

  lemma {:induction false} AudioOfSlices(slices: seq<seq<byte>>)
    ensures AudioOf(AudioFrames(slices)) == Flatten(slices)
  {
    if slices != [] {
      var m := |slices| - 1;
      AudioOfSlices(slices[..m]);
      assert AudioFrames(slices)[..m] == AudioFrames(slices[..m]);
    }
  }

  lemma BlockPlays(d: Decoded, n: nat)
    requires n > 0
    ensures OfBlock(d, n).stopped <==> IsError(d)
    ensures Plays(OfBlock(d, n).frames, if IsError(d) then [] else PcmOf(d), IsError(d), n)
  {
    if !IsError(d) && d.Message? && !d.extraInfo {
      SlicesPlay(d.pcm, n);
      var frames := AudioFrames(Slices(d.pcm, n));
      assert frames[..|frames|] == frames;
    }
  }

  lemma PlaysOn(a: seq<Frame>, p: seq<byte>, b: seq<Frame>, q: seq<byte>, failed: bool, n: nat)
    requires Plays(a, p, false, n) && Plays(b, q, failed, n)
    ensures Plays(a + b, p + q, failed, n)
  {
    var m := if failed then |b| - 1 else |b|;
    assert a[..|a|] == a && (a + b)[..|a| + m] == a + b[..m];
    AudioJoins(a, b[..m]);
  }

  lemma BreakPlays(a: seq<Frame>, p: seq<byte>, text: string, n: nat)
    requires Plays(a, p, false, n)
    ensures Plays(a + [ErrorFrame(text)], p, true, n)
  {
    var r := a + [ErrorFrame(text)];
    assert a[..|a|] == a && r[..|r| - 1] == a;
  }

  /** Of any list of blocks, the audio up to the first error is put out, all of it and in order,
      and then, if there is one, a single error frame. */
  lemma {:induction false} BlocksPlay(blocks: seq<seq<byte>>, decode: seq<byte> -> Decoded, n: nat)
    requires n > 0
    ensures var k, out := FirstError(blocks, decode), OfBlocks(blocks, decode, n);
            && (out.stopped <==> k < |blocks|)
            && Plays(out.frames, PcmOfBlocks(blocks[..k], decode), out.stopped, n)
  {
    if blocks != [] {
      var m := |blocks| - 1;
      var k := FirstError(blocks[..m], decode);
      BlocksPlay(blocks[..m], decode, n);
      if k < m {
        assert blocks[..m][..k] == blocks[..k];
      } else {
        assert blocks[..m][..m] == blocks[..m] && blocks[..|blocks|] == blocks;
        BlockPlays(decode(blocks[m]), n);
        var q := if IsError(decode(blocks[m])) then [] else PcmOf(decode(blocks[m]));
        PlaysOn(OfBlocks(blocks[..m], decode, n).frames, PcmOfBlocks(blocks[..m], decode),
                OfBlock(decode(blocks[m]), n).frames, q, IsError(decode(blocks[m])), n);
        assert PcmOfBlocks(blocks[..m], decode) + [] == PcmOfBlocks(blocks[..m], decode);
      }
    }
  }

  /** The same of a stream; a break counts as an error behind its last block. */
  lemma StreamPlays(stream: seq<byte>, broken: bool, decode: seq<byte> -> Decoded, n: nat)
    requires n > 0
    ensures var blocks := Blocks(stream);
            var k := FirstError(blocks, decode);
            Plays(OfStream(stream, broken, decode, n), PcmOfBlocks(blocks[..k], decode), broken || k < |blocks|, n)
  {
    var blocks := Blocks(stream);
    BlocksPlay(blocks, decode, n);
    var out := OfBlocks(blocks, decode, n);
    if broken && !out.stopped {
      assert blocks[..FirstError(blocks, decode)] == blocks;
      BreakPlays(out.frames, PcmOfBlocks(blocks, decode), "MiniMax stream failed", n);
    }
  }

  /** What the error frame says: the service's own message for a status code. */
  lemma ErrorsAreNamed(d: Decoded, n: nat)
    requires n > 0 && IsError(d)
    ensures OfBlock(d, n).frames == [ErrorFrame(if d.Message? then "MiniMax error: " + d.statusMsg
                                                else "MiniMax stream failed")]
  {
  }

  // --- the loop -----------------------------------------------------------------------

  /** `for i in range(0, len(pcm), chunk_bytes)`. */
  method SlicePcm(pcm: seq<byte>, n: nat) returns (slices: seq<seq<byte>>)
    requires n > 0
    ensures slices == Slices(pcm, n)
  {
    slices := [];
    var i := 0;
    while i < |pcm|
      invariant 0 <= i && slices + Slices(From(pcm, i), n) == Slices(pcm, n)
    {
      var slice := pcm[i..if i + n <= |pcm| then i + n else |pcm|];
      NextSlice(pcm, i, slices, n);
      slices := slices + [slice];
      i := i + n;
    }
  }

  /** What is left from index i on; nothing behind the end. */
  function From(pcm: seq<byte>, i: nat): seq<byte> {
    pcm[if i <= |pcm| then i else |pcm|..]
  }

  lemma NextSlice(pcm: seq<byte>, i: nat, slices: seq<seq<byte>>, n: nat)
    requires n > 0 && i < |pcm|
    ensures var slice := pcm[i..if i + n <= |pcm| then i + n else |pcm|];
            slices + Slices(From(pcm, i), n) == slices + [slice] + Slices(From(pcm, i + n), n)
  {
    var end := if i + n <= |pcm| then i + n else |pcm|;
    var rest := pcm[i..];
    SliceOff(rest, end - i, n);
    assert rest[..end - i] == pcm[i..end] && rest[end - i..] == From(pcm, i + n);
  }

  lemma SliceOff(pcm: seq<byte>, k: nat, n: nat)
    requires n > 0 && pcm != [] && k == (if n <= |pcm| then n else |pcm|)
    ensures Slices(pcm, n) == [pcm[..k]] + Slices(pcm[k..], n)
  {
    if |pcm| <= n {
      assert pcm[..k] == pcm && pcm[k..] == [];
    }
  }

  /** The part of the loop that handles one block. */
  method HandleBlock(block: seq<byte>, decode: seq<byte> -> Decoded, n: nat) returns (out: Output)
    requires n > 0
    ensures out == OfBlock(decode(block), n)
    ensures out.stopped <==> IsError(decode(block))
    ensures Plays(out.frames, if out.stopped then [] else PcmOf(decode(block)), out.stopped, n)
  {
    BlockPlays(decode(block), n);
    match decode(block) {
      case NotJson =>
        return Output([], false);
      case NotAnObject =>
        return Output([ErrorFrame("MiniMax stream failed")], true);
      case Message(code, msg, extra, pcm) =>
        if code != 0 {
          return Output([ErrorFrame("MiniMax error: " + msg)], true);
        }
        if extra {
          return Output([], false);
        }
        var slices := SlicePcm(pcm, n);
        return Output(AudioFrames(slices), false);
    }
  }

  /** The blocks completed by one chunk, handled in order up to an error. */
  method HandleBlocks(blocks: seq<seq<byte>>, decode: seq<byte> -> Decoded, n: nat) returns (out: Output)
    requires n > 0
    ensures out == OfBlocks(blocks, decode, n)
  {
    out := Output([], false);
    var b := 0;
    while b < |blocks| && !out.stopped
      invariant 0 <= b <= |blocks| && out == OfBlocks(blocks[..b], decode, n)
    {
      assert blocks[..b + 1][..b] == blocks[..b];
      var last := HandleBlock(blocks[b], decode, n);
      out := Output(out.frames + last.frames, last.stopped);
      b := b + 1;
    }
    OutputConcatenates(blocks[..b], blocks[b..], decode, n);
    assert blocks[..b] + blocks[b..] == blocks;
  }

  method RunTts(chunks: seq<seq<byte>>, broken: bool, decode: seq<byte> -> Decoded, chunkSize: nat)
    returns (frames: seq<Frame>)
    ensures frames == OfStream(Flatten(chunks), broken, decode, if chunkSize == 0 then DEFAULT_CHUNK else chunkSize)
    ensures var blocks := Blocks(Flatten(chunks));
            var k := FirstError(blocks, decode);
            Plays(frames, PcmOfBlocks(blocks[..k], decode), broken || k < |blocks|,
                  if chunkSize == 0 then 960 else chunkSize)
  {
    StreamPlays(Flatten(chunks), broken, decode, if chunkSize == 0 then DEFAULT_CHUNK else chunkSize);
    var n := if chunkSize == 0 then DEFAULT_CHUNK else chunkSize;
    var splitter := new Splitter();
    frames := [];
    for c := 0 to |chunks|
      invariant splitter.Valid() && splitter.fed == Flatten(chunks[..c])
      invariant OfBlocks(Blocks(splitter.fed), decode, n) == Output(frames, false)
    {
      assert chunks[..c + 1][..c] == chunks[..c];
      if chunks[c] == [] { continue; }
      ghost var before := Blocks(splitter.fed);
      var blocks := splitter.Feed(chunks[c]);
      var out := HandleBlocks(blocks, decode, n);
      OutputConcatenates(before, blocks, decode, n);
      frames := frames + out.frames;
      if out.stopped {
        StreamIsDecided(chunks, c + 1, decode, n);
        return;
      }
    }
    assert chunks[..|chunks|] == chunks;
    if broken {
      frames := frames + [ErrorFrame("MiniMax stream failed")];
    }
  }

  /** Once an error has been put out, the chunks not yet read do not matter. */
  lemma StreamIsDecided(chunks: seq<seq<byte>>, c: nat, decode: seq<byte> -> Decoded, n: nat)
    requires n > 0 && c <= |chunks|
    requires OfBlocks(Blocks(Flatten(chunks[..c])), decode, n).stopped
    ensures OfBlocks(Blocks(Flatten(chunks)), decode, n) == OfBlocks(Blocks(Flatten(chunks[..c])), decode, n)
  {
    FlattenPrefix(chunks, c);
    var read, all := Flatten(chunks[..c]), Flatten(chunks);
    assert all == read + all[|read|..];
    BlocksGrow(read, all[|read|..]);
    var done := Blocks(read);
    assert Blocks(all) == done + Blocks(all)[|done|..];
    OutputConcatenates(done, Blocks(all)[|done|..], decode, n);
  }

  lemma {:induction false} FlattenPrefix<T>(ss: seq<seq<T>>, c: nat)
    requires c <= |ss|
    ensures Flatten(ss[..c]) <= Flatten(ss)
  {
    if c < |ss| {
      FlattenPrefix(ss[..|ss| - 1], c);
      assert ss[..|ss| - 1][..c] == ss[..c];
    } else {
      assert ss[..c] == ss;
    }
  }

  /** Two ways of cutting the same bytes into chunks give the same frames. */
  method SameBytesSameFrames(xs: seq<seq<byte>>, ys: seq<seq<byte>>, broken: bool, decode: seq<byte> -> Decoded,
                             chunkSize: nat)
    returns (fx: seq<Frame>, fy: seq<Frame>)
    requires Flatten(xs) == Flatten(ys)
    ensures fx == fy
  {
    fx := RunTts(xs, broken, decode, chunkSize);
    fy := RunTts(ys, broken, decode, chunkSize);
  }
}
