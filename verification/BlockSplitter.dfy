/**
 The streaming block splitter of SimpleMiniMaxTTSService.run_tts (bot.py).

 Network chunks are appended to a buffer; every stretch from one "data:" up to the next
 one is cut off as a block.  The last block is always withheld.  The specification knows
 nothing of chunks: it cuts the whole stream at all occurrences of the marker.
 */
module BlockSplitter {
  import opened Wrappers

  newtype byte = b: int | 0 <= b < 256

  // --- the whole-stream specification ------------------------------------------------

  /** b"data:" stands at position i. */
  predicate MarkerAt(s: seq<byte>, i: int) {
    && 0 <= i && i + 5 <= |s|
    && s[i] == 100 && s[i + 1] == 97 && s[i + 2] == 116 && s[i + 3] == 97 && s[i + 4] == 58
  }

  ghost predicate Ascending(p: seq<nat>, lo: nat, hi: int) {
    && (forall k | 0 <= k < |p| :: lo <= p[k] <= hi)
    && (forall i, j | 0 <= i < j < |p| :: p[i] < p[j])
  }

  /** All occurrences of the marker at or after `from`, in order. */
  function Occurrences(s: seq<byte>, from: nat): (p: seq<nat>)
    ensures Ascending(p, from, |s|)
    decreases |s| - from
  {
    if from + 5 > |s| then []
    else (if MarkerAt(s, from) then [from] else []) + Occurrences(s, from + 1)
  }

  /** The first n of the pieces of s between consecutive positions of p. */
  function Pieces(s: seq<byte>, p: seq<nat>, n: nat): (r: seq<seq<byte>>)
    requires Ascending(p, 0, |s|) && (n == 0 || n < |p|)
    ensures |r| == n
  {
    if n == 0 then [] else Pieces(s, p, n - 1) + [s[p[n - 1]..p[n]]]
  }

  function Gaps<T>(p: seq<T>): nat {
    if p == [] then 0 else |p| - 1
  }

  /** The blocks of a stream: what lies between consecutive occurrences of the marker. */
  function Blocks(s: seq<byte>): seq<seq<byte>> {
    Pieces(s, Occurrences(s, 0), Gaps(Occurrences(s, 0)))
  }

  /** What is withheld: everything from position p's last entry on. */
  function Tail(s: seq<byte>, p: seq<nat>): seq<byte>
    requires Ascending(p, 0, |s|)
  {
    if p == [] then s else s[p[|p| - 1]..]
  }

  function Rest(s: seq<byte>): seq<byte> {
    Tail(s, Occurrences(s, 0))
  }

  /** p lists exactly the positions of the marker. */
  ghost predicate Marks(s: seq<byte>, p: seq<nat>) {
    && Ascending(p, 0, |s|)
    && (forall k | 0 <= k < |p| :: MarkerAt(s, p[k]))
    && (forall i | MarkerAt(s, i) :: i in p)
  }

  lemma {:induction false} OccurrencesFrom(s: seq<byte>, from: nat)
    ensures forall k | 0 <= k < |Occurrences(s, from)| :: MarkerAt(s, Occurrences(s, from)[k])
    ensures forall i | from <= i && MarkerAt(s, i) :: i in Occurrences(s, from)
    decreases |s| - from
  {
    if from + 5 <= |s| {
      OccurrencesFrom(s, from + 1);
    }
  }

  lemma OccurrencesAreTheMarkers(s: seq<byte>)
    ensures Marks(s, Occurrences(s, 0))
  {
    OccurrencesFrom(s, 0);
  }

  /** Two occurrences of the marker cannot overlap, so resuming a search five bytes on
      misses nothing. */
  lemma MarkersDoNotOverlap(s: seq<byte>, i: int, j: int)
    requires MarkerAt(s, i) && MarkerAt(s, j) && i < j
    ensures i + 5 <= j
  {
  }

  /** Later bytes never undo an occurrence, and add new ones only at the end. */
  lemma {:induction false} MoreBytesMoreOccurrences(s: seq<byte>, more: seq<byte>, from: nat)
    requires from <= |s|
    ensures Occurrences(s, from) <= Occurrences(s + more, from)
    decreases |s| - from
  {
    if from + 5 <= |s| {
      MoreBytesMoreOccurrences(s, more, from + 1);
    }
  }

  /** Blocks that are complete stay as they are when more bytes arrive. */
  lemma {:induction false} MoreBytesSamePieces(s: seq<byte>, more: seq<byte>, p: seq<nat>, q: seq<nat>, n: nat)
    requires Ascending(p, 0, |s|) && Ascending(q, 0, |s + more|) && p <= q
    requires n == 0 || n < |p|
    ensures Pieces(s + more, q, n) == Pieces(s, p, n)
  {
    if n > 0 {
      MoreBytesSamePieces(s, more, p, q, n - 1);
      assert p[n - 1] == q[n - 1] && p[n] == q[n];
      assert (s + more)[p[n - 1]..p[n]] == s[p[n - 1]..p[n]];
    }
  }

  function Flatten<T>(ss: seq<seq<T>>): seq<T> {
    if ss == [] then [] else Flatten(ss[..|ss| - 1]) + ss[|ss| - 1]
  }

  lemma {:induction false} PiecesAreASlice(s: seq<byte>, p: seq<nat>, n: nat)
    requires Ascending(p, 0, |s|) && n < |p|
    ensures p[0] <= p[n] && Flatten(Pieces(s, p, n)) == s[p[0]..p[n]]
  {
    if n > 0 {
      PiecesAreASlice(s, p, n - 1);
      var ps := Pieces(s, p, n);
      assert ps[..n - 1] == Pieces(s, p, n - 1);
      assert s[p[0]..p[n - 1]] + s[p[n - 1]..p[n]] == s[p[0]..p[n]];
    }
  }

  lemma SlicesJoin<T>(s: seq<T>, a: nat, b: nat)
    requires a <= b <= |s|
    ensures s[..a] + s[a..b] + s[b..] == s
  {
  }

  /** Nothing is lost or repeated: the stream is the bytes before the first marker, the
      blocks, and the withheld rest. */
  lemma BlocksPartitionTheStream(s: seq<byte>)
    requires Occurrences(s, 0) != []
    ensures s[..Occurrences(s, 0)[0]] + Flatten(Blocks(s)) + Rest(s) == s
  {
    var p := Occurrences(s, 0);
    PiecesAreASlice(s, p, |p| - 1);
    SlicesJoin(s, p[0], p[|p| - 1]);
  }

  // --- the buffer loop ----------------------------------------------------------------

  /** bytearray.find(b"data:", from). */
  method Find(s: seq<byte>, from: nat) returns (at: int)
    ensures at == -1 ==> forall i | from <= i :: !MarkerAt(s, i)
    ensures at != -1 ==> from <= at && MarkerAt(s, at) && forall i | from <= i < at :: !MarkerAt(s, i)
  {
    at := from;
    while at + 5 <= |s|
      invariant from <= at
      invariant forall i | from <= i < at :: !MarkerAt(s, i)
    {
      if MarkerAt(s, at) { return; }
      at := at + 1;
    }
    at := -1;
  }

  lemma MarkerInSuffix(s: seq<byte>, c: nat, i: int)
    requires c <= |s| && 0 <= i
    ensures MarkerAt(s[c..], i) <==> MarkerAt(s, c + i)
  {
  }

  /** The buffer holds `whole` from c on; k blocks have been cut off. */
  ghost predicate CutAt(whole: seq<byte>, p: seq<nat>, buffer: seq<byte>, c: nat, k: nat) {
    && c <= |whole| && buffer == whole[c..]
    && (k > 0 ==> k < |p| && c == p[k])
    && (k == 0 ==> if p == [] then c == 0 else c <= p[0])
  }

  /** A search in the buffer for occurrence j finds it where the whole stream has it. */
  lemma SearchInBuffer(whole: seq<byte>, p: seq<nat>, buffer: seq<byte>, c: nat, from: nat, j: nat, at: int)
    requires Marks(whole, p) && c <= |whole| && buffer == whole[c..]
    requires j <= |p| && (j < |p| ==> c + from <= p[j]) && (j > 0 ==> p[j - 1] < c + from)
    requires at == -1 ==> forall i | from <= i :: !MarkerAt(buffer, i)
    requires at != -1 ==> from <= at && MarkerAt(buffer, at) && forall i | from <= i < at :: !MarkerAt(buffer, i)
    ensures j == |p| ==> at == -1
    ensures j < |p| ==> at == p[j] - c
  {
    if at != -1 {
      MarkerInSuffix(whole, c, at);
      var m :| 0 <= m < |p| && p[m] == c + at;
      assert m >= j;
    }
    if j < |p| {
      MarkerInSuffix(whole, c, p[j] - c);
      assert MarkerAt(buffer, p[j] - c);
    }
  }

  lemma SlicesOfSuffix(s: seq<byte>, c: nat, i: nat, j: nat)
    requires c <= |s| && i <= j <= |s| - c
    ensures s[c..][i..j] == s[c + i..c + j] && s[c..][i..] == s[c + i..] && s[c..][j..] == s[c + j..]
  {
  }

  /** Cutting at the search results is cutting at the occurrences. */
  lemma CutIsAPiece(whole: seq<byte>, p: seq<nat>, buffer: seq<byte>, c: nat, k: nat, start: nat, nxt: nat)
    requires Ascending(p, 0, |whole|) && CutAt(whole, p, buffer, c, k) && k + 1 < |p|
    requires start == p[k] - c && nxt == p[k + 1] - c
    ensures start < nxt <= |buffer| && buffer[start..nxt] == whole[p[k]..p[k + 1]]
    ensures CutAt(whole, p, buffer[nxt..], p[k + 1], k + 1)
  {
    SlicesOfSuffix(whole, c, start, nxt);
  }

  lemma TrimIsTheTail(whole: seq<byte>, p: seq<nat>, buffer: seq<byte>, c: nat, k: nat, start: nat)
    requires Ascending(p, 0, |whole|) && CutAt(whole, p, buffer, c, k) && k + 1 == |p|
    requires start == p[k] - c
    ensures start <= |buffer| && buffer[start..] == Tail(whole, p)
  {
    SlicesOfSuffix(whole, c, start, start);
  }

  /** With the next chunk appended, the old rest is a cut of the longer stream. */
  lemma RestIsACut(fed: seq<byte>, raw: seq<byte>, p0: seq<nat>, p: seq<nat>, c: nat)
    requires Ascending(p0, 0, |fed|) && Ascending(p, 0, |fed + raw|) && p0 <= p
    requires c == if p0 == [] then 0 else p0[|p0| - 1]
    ensures Gaps(p0) <= Gaps(p) && CutAt(fed + raw, p, Tail(fed, p0) + raw, c, Gaps(p0))
    ensures Pieces(fed + raw, p, Gaps(p0)) == Pieces(fed, p0, Gaps(p0))
  {
    MoreBytesSamePieces(fed, raw, p0, p, Gaps(p0));
    assert fed[c..] + raw == (fed + raw)[c..];
  }

  class Splitter {
    var buffer: seq<byte>
    ghost var fed: seq<byte>   // every byte received so far

    ghost predicate Valid()
      reads this
    {
      buffer == Rest(fed)
    }

    constructor ()
      ensures Valid() && fed == []
    {
      buffer, fed := [], [];
    }

    /** One turn of the loop `while b"data:" in buffer`: the next complete block, if any. */
    method NextBlock(ghost whole: seq<byte>, ghost p: seq<nat>, ghost c: nat, ghost k: nat)
      returns (block: Option<seq<byte>>, ghost c': nat)
      requires Marks(whole, p) && CutAt(whole, p, buffer, c, k)
      modifies this`buffer
      ensures block.Some? ==> k + 1 < |p| && block.value == whole[p[k]..p[k + 1]]
                              && CutAt(whole, p, buffer, c', k + 1) && |buffer| < |old(buffer)|
      ensures block.None? ==> k == Gaps(p) && buffer == Tail(whole, p)
    {
      c' := c;
      var start := Find(buffer, 0);
      SearchInBuffer(whole, p, buffer, c, 0, k, start);
      if start == -1 {
        return None, c;
      }
      var nxt := Find(buffer, start + 5);
      if k + 1 < |p| {
        MarkersDoNotOverlap(whole, p[k], p[k + 1]);
      }
      SearchInBuffer(whole, p, buffer, c, start + 5, k + 1, nxt);
      if nxt == -1 {
        TrimIsTheTail(whole, p, buffer, c, k, start);
        if start > 0 {
          buffer := buffer[start..];
        }
        return None, c;
      }
      CutIsAPiece(whole, p, buffer, c, k, start, nxt);
      block := Some(buffer[start..nxt]);
      buffer := buffer[nxt..];
      c' := p[k + 1];
    }

    /** The loop `while b"data:" in buffer`: every block that is complete. */
    method Drain(ghost whole: seq<byte>, ghost p: seq<nat>, ghost c0: nat, ghost k0: nat)
      returns (blocks: seq<seq<byte>>)
      requires Marks(whole, p) && CutAt(whole, p, buffer, c0, k0) && k0 <= Gaps(p)
      modifies this`buffer
      ensures Pieces(whole, p, Gaps(p)) == Pieces(whole, p, k0) + blocks
      ensures buffer == Tail(whole, p)
    {
      blocks := [];
      ghost var k: nat, c: nat := k0, c0;
      while true
        invariant CutAt(whole, p, buffer, c, k) && k <= Gaps(p)
        invariant Pieces(whole, p, k) == Pieces(whole, p, k0) + blocks
        decreases |buffer|
      {
        var block: Option<seq<byte>>;
        block, c := NextBlock(whole, p, c, k);
        if block.None? { break; }
        blocks := blocks + [block.value];
        k := k + 1;
      }
    }

    /** Appends one chunk and hands out the blocks it completes. */
    method Feed(raw: seq<byte>) returns (blocks: seq<seq<byte>>)
      requires Valid()
      modifies this
      ensures Valid() && fed == old(fed) + raw
      ensures Blocks(fed) == Blocks(old(fed)) + blocks
    {
      ghost var p0, p := Occurrences(fed, 0), Occurrences(fed + raw, 0);
      ghost var c: nat := if p0 == [] then 0 else p0[|p0| - 1];
      MoreBytesMoreOccurrences(fed, raw, 0);
      OccurrencesAreTheMarkers(fed + raw);
      RestIsACut(fed, raw, p0, p, c);
      buffer := buffer + raw;
      blocks := Drain(fed + raw, p, c, Gaps(p0));
      fed := fed + raw;
    }
  }
}
