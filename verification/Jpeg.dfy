/**
  The streaming JPEG splitter of `video.rs`: frames are cut out of a buffer that grows by
  whatever chunks the pipe delivers, and when the result depends on the chunks.
 */
module Jpeg {
  import opened Common

  const SOI_BYTE: Byte := 0xD8
  const EOI_BYTE: Byte := 0xD9
  const MAX_BUFFER: nat := 20 * 1024 * 1024
  /** The most one read of the pipe delivers. */
  const READ_SIZE: nat := 16384

  /** A two-byte marker 0xFF `m` starts at index `i`. */
  predicate MarkerAt(s: seq<Byte>, m: Byte, i: nat) {
    i + 1 < |s| && s[i] == 0xFF && s[i + 1] == m
  }

  /** No marker starts at `from` or later. */
  ghost predicate NoMarker(s: seq<Byte>, m: Byte, from: nat) {
    forall i :: from <= i < |s| ==> !MarkerAt(s, m, i)
  }

  /** `windows(2).position(..)` from an index on. */
  function Find(s: seq<Byte>, m: Byte, from: nat): (r: Option<nat>)
    ensures r.Some? ==> from <= r.value && r.value + 1 < |s|
    decreases |s| - from
  {
    if from + 1 >= |s| then None
    else if MarkerAt(s, m, from) then Some(from)
    else Find(s, m, from + 1)
  }

  /** The first marker is found, and nothing when there is none. */
  ghost predicate FirstMarker(s: seq<Byte>, m: Byte, from: nat, i: nat) {
    from <= i && MarkerAt(s, m, i) && forall k :: from <= k < i ==> !MarkerAt(s, m, k)
  }

  lemma {:induction false} FindCorrect(s: seq<Byte>, m: Byte, from: nat)
    ensures Find(s, m, from).None? ==> NoMarker(s, m, from)
    ensures Find(s, m, from).Some? ==> FirstMarker(s, m, from, Find(s, m, from).value)
    decreases |s| - from
  {
    if from + 1 < |s| && !MarkerAt(s, m, from) {
      FindCorrect(s, m, from + 1);
    }
  }

  lemma {:induction false} FindIs(s: seq<Byte>, m: Byte, from: nat, i: nat)
    requires FirstMarker(s, m, from, i)
    ensures Find(s, m, from) == Some(i)
  {
    FindCorrect(s, m, from);
  }

  lemma {:induction false} FindNone(s: seq<Byte>, m: Byte, from: nat)
    requires NoMarker(s, m, from)
    ensures Find(s, m, from) == None
  {
    FindCorrect(s, m, from);
  }

  /** What one call leaves behind: the frames it cut and the bytes it keeps. */
  datatype Outcome = Outcome(frames: seq<seq<Byte>>, residue: seq<Byte>)

  /** The splitter without the buffer cap. */
  function Split(buf: seq<Byte>): (r: Outcome)
    ensures |r.residue| <= |buf|
    decreases |buf|
  {
    if |buf| < 2 then Outcome([], buf)
    else
      match Find(buf, SOI_BYTE, 0)
      case None => Outcome([], if buf[|buf| - 1] == 0xFF then [0xFF] else [])
      case Some(start) =>
        var b := buf[start..];
        if |b| < 4 then Outcome([], b)
        else
          match Find(b, EOI_BYTE, 2)
          case None => Outcome([], b)
          case Some(e) =>
            var more := Split(b[e + 2..]);
            Outcome([b[..e + 2]] + more.frames, more.residue)
  }

  /** The cap: an unfinished frame longer than `cap` is dropped. */
  function Capped(cap: nat, r: Outcome): Outcome {
    if |r.residue| > cap then r.(residue := []) else r
  }

  /** A frame starts at the front of `c` and is not finished in it. */
  predicate Unfinished(c: seq<Byte>) {
    MarkerAt(c, SOI_BYTE, 0) && (|c| < 4 || Find(c, EOI_BYTE, 2).None?)
  }

  lemma {:induction false} SplitUnfinished(c: seq<Byte>)
    requires Unfinished(c)
    ensures Split(c) == Outcome([], c)
  {
    assert c[0..] == c;
  }

  lemma {:induction false} SplitFrame(c: seq<Byte>, e: nat)
    requires MarkerAt(c, SOI_BYTE, 0) && |c| >= 4 && Find(c, EOI_BYTE, 2) == Some(e)
    ensures e + 2 <= |c| && Split(c) == Prepend([c[..e + 2]], Split(c[e + 2..]))
  {
    assert c[0..] == c;
  }

  /** Dropping the garbage before the first SOI changes nothing. */
  lemma {:induction false} SoiAtFront(buf: seq<Byte>, start: nat)
    requires Find(buf, SOI_BYTE, 0) == Some(start)
    ensures MarkerAt(buf[start..], SOI_BYTE, 0) && Split(buf[start..]) == Split(buf)
  {
    FindCorrect(buf, SOI_BYTE, 0);
    var b := buf[start..];
    assert MarkerAt(b, SOI_BYTE, 0);
    assert b[0..] == b;
  }

  function Prepend(frames: seq<seq<Byte>>, r: Outcome): Outcome {
    Outcome(frames + r.frames, r.residue)
  }

  /** The caller's buffer, drained in place. */
  class StreamBuffer {
    var buf: seq<Byte>

    /** `split_jpegs`. */
    method SplitJpegs() returns (frames: seq<seq<Byte>>)
      modifies this
      ensures Outcome(frames, buf) == Capped(MAX_BUFFER, Split(old(buf)))
    {
      frames := [];
      ghost var goal := Split(buf);
      while true
        invariant Prepend(frames, Split(buf)) == goal
        decreases |buf|
      {
        if |buf| < 2 { return; }
        var soi := if buf[0] == 0xFF && buf[1] == 0xD8 then Some(0) else Find(buf, SOI_BYTE, 0);
        if soi.None? {
          if buf[|buf| - 1] == 0xFF {
            buf := buf[|buf| - 1..];
          } else {
            buf := [];
          }
          return;
        }
        SoiAtFront(buf, soi.value);
        if soi.value > 0 {
          buf := buf[soi.value..];
        }
        if |buf| < 4 {
          SplitUnfinished(buf);
          return;
        }
        match Find(buf, EOI_BYTE, 2)
        case None =>
          SplitUnfinished(buf);
          if |buf| > MAX_BUFFER {
            buf := [];
          }
          return;
        case Some(e) =>
          SplitFrame(buf, e);
          ConcatAssociates(frames, [buf[..e + 2]], Split(buf[e + 2..]).frames);
          frames := frames + [buf[..e + 2]];
          buf := buf[e + 2..];
      }
    }

    /** One turn of the read loop: the chunk is appended and the buffer split. */
    method Feed(chunk: seq<Byte>) returns (frames: seq<seq<Byte>>)
      modifies this
      ensures Outcome(frames, buf) == Capped(MAX_BUFFER, Split(old(buf) + chunk))
    {
      buf := buf + chunk;
      frames := SplitJpegs();
    }
  }

  // ----- Chunk invariance -----

  /** The first SOI after bytes before which none starts. */
  lemma {:induction false} FindAfterGarbage(garbage: seq<Byte>, rest: seq<Byte>)
    requires forall i :: 0 <= i < |garbage| ==> !MarkerAt(garbage + rest, SOI_BYTE, i)
    ensures var k := Find(rest, SOI_BYTE, 0);
            Find(garbage + rest, SOI_BYTE, 0) == if k.None? then None else Some(|garbage| + k.value)
  {
    var whole, n := garbage + rest, |garbage|;
    FindCorrect(rest, SOI_BYTE, 0);
    forall i | n <= i < |whole|
      ensures MarkerAt(whole, SOI_BYTE, i) == MarkerAt(rest, SOI_BYTE, i - n)
    {
    }
    match Find(rest, SOI_BYTE, 0)
    case None => FindNone(whole, SOI_BYTE, 0);
    case Some(k) => FindIs(whole, SOI_BYTE, 0, n + k);
  }

  /** Bytes before which no frame can start do not matter to the frames. */
  lemma {:induction false} GarbageIsIgnored(garbage: seq<Byte>, rest: seq<Byte>)
    requires forall i :: 0 <= i < |garbage| ==> !MarkerAt(garbage + rest, SOI_BYTE, i)
    ensures Split(garbage + rest).frames == Split(rest).frames
  {
    var whole := garbage + rest;
    FindCorrect(rest, SOI_BYTE, 0);
    match Find(rest, SOI_BYTE, 0)
    case None =>
      forall i | 0 <= i < |whole|
        ensures !MarkerAt(whole, SOI_BYTE, i)
      {
        if i >= |garbage| {
          assert !MarkerAt(rest, SOI_BYTE, i - |garbage|);
        }
      }
      FindNone(whole, SOI_BYTE, 0);
    case Some(k) =>
      forall i | 0 <= i < |garbage| + k
        ensures !MarkerAt(whole, SOI_BYTE, i)
      {
        if i >= |garbage| {
          assert !MarkerAt(rest, SOI_BYTE, i - |garbage|);
        }
      }
      assert MarkerAt(whole, SOI_BYTE, |garbage| + k);
      FindIs(whole, SOI_BYTE, 0, |garbage| + k);
      SoiAtFront(whole, |garbage| + k);
      SoiAtFront(rest, k);
      assert whole[|garbage| + k..] == rest[k..];
  }

  lemma {:induction false} MarkersOfPrefix(a: seq<Byte>, b: seq<Byte>, m: Byte, i: nat)
    requires i + 1 < |a|
    ensures MarkerAt(a + b, m, i) == MarkerAt(a, m, i)
  {
  }

  lemma {:induction false} FindInPrefix(a: seq<Byte>, b: seq<Byte>, m: Byte, from: nat)
    requires Find(a, m, from).Some?
    ensures Find(a + b, m, from) == Find(a, m, from)
  {
    var e := Find(a, m, from).value;
    FindCorrect(a, m, from);
    forall k | from <= k < e
      ensures !MarkerAt(a + b, m, k)
    {
      MarkersOfPrefix(a, b, m, k);
    }
    FindIs(a + b, m, from, e);
  }

  lemma {:induction false} AppendAfterGarbage(a: seq<Byte>, b: seq<Byte>)
    requires |a| >= 2 && Find(a, SOI_BYTE, 0).None?
    ensures Split(a).frames == [] && Split(a + b).frames == Split(Split(a).residue + b).frames
  {
    var n := if a[|a| - 1] == 0xFF then |a| - 1 else |a|;
    FindCorrect(a, SOI_BYTE, 0);
    assert Split(a).residue == a[n..];
    assert a + b == a[..n] + (a[n..] + b);
    forall i | 0 <= i < n
      ensures !MarkerAt(a[..n] + (a[n..] + b), SOI_BYTE, i)
    {
      assert !MarkerAt(a, SOI_BYTE, i);
    }
    GarbageIsIgnored(a[..n], a[n..] + b);
  }

  lemma {:induction false} AppendAfterFrame(c: seq<Byte>, e: nat, b: seq<Byte>)
    requires MarkerAt(c, SOI_BYTE, 0) && |c| >= 4 && Find(c, EOI_BYTE, 2) == Some(e)
    ensures e + 2 <= |c| && Split(c + b).frames == [c[..e + 2]] + Split(c[e + 2..] + b).frames
  {
    FindInPrefix(c, b, EOI_BYTE, 2);
    SplitFrame(c + b, e);
    DropOfConcat(c, b, e + 2);
  }

  lemma {:induction false} AppendAtSoi(c: seq<Byte>, b: seq<Byte>)
    requires MarkerAt(c, SOI_BYTE, 0)
    ensures Split(c + b).frames == Split(c).frames + Split(Split(c).residue + b).frames
    decreases |c|, 0
  {
    if Unfinished(c) {
      SplitUnfinished(c);
    } else {
      var e := Find(c, EOI_BYTE, 2).value;
      var rest := c[e + 2..];
      SplitFrame(c, e);
      AppendAfterFrame(c, e, b);
      SplitAppend(rest, b);
      ConcatAssociates([c[..e + 2]], Split(rest).frames, Split(Split(rest).residue + b).frames);
    }
  }

  /** Frames of a whole stream are those of its beginning, then those of the kept bytes and the rest. */
  lemma {:induction false} SplitAppend(a: seq<Byte>, b: seq<Byte>)
    ensures Split(a + b).frames == Split(a).frames + Split(Split(a).residue + b).frames
    decreases |a|, 1
  {
    if |a| >= 2 {
      match Find(a, SOI_BYTE, 0)
      case None => AppendAfterGarbage(a, b);
      case Some(start) =>
        SoiAtFront(a, start);
        FindInPrefix(a, b, SOI_BYTE, 0);
        SoiAtFront(a + b, start);
        DropOfConcat(a, b, start);
        AppendAtSoi(a[start..], b);
    }
  }

  function Concat(chunks: seq<seq<Byte>>): seq<Byte> {
    if chunks == [] then [] else chunks[0] + Concat(chunks[1..])
  }

  /** The frames emitted over a run of the read loop, starting with `buf`. */
  function FeedAll(cap: nat, buf: seq<Byte>, chunks: seq<seq<Byte>>): seq<seq<Byte>>
    decreases |chunks|
  {
    if chunks == [] then []
    else
      var r := Capped(cap, Split(buf + chunks[0]));
      r.frames + FeedAll(cap, r.residue, chunks[1..])
  }

  /** The kept bytes hold no complete frame. */
  lemma {:induction false} ResidueHasNoFrame(buf: seq<Byte>)
    ensures Split(Split(buf).residue).frames == []
    decreases |buf|
  {
    if |buf| >= 2 && Find(buf, SOI_BYTE, 0).Some? {
      var start := Find(buf, SOI_BYTE, 0).value;
      SoiAtFront(buf, start);
      var c := buf[start..];
      if Unfinished(c) {
        SplitUnfinished(c);
      } else {
        var e := Find(c, EOI_BYTE, 2).value;
        SplitFrame(c, e);
        ResidueHasNoFrame(c[e + 2..]);
      }
    }
  }

  // ----- What the frames are: an independent reading of the stream -----

  /** SOI, a body in which no EOI starts, EOI. */
  ghost predicate IsFrame(f: seq<Byte>) {
    |f| >= 4 && MarkerAt(f, SOI_BYTE, 0) && FirstMarker(f, EOI_BYTE, 2, |f| - 2)
  }

  /** Bytes with no complete frame: no SOI at all, or garbage and an unfinished frame. */
  ghost predicate IsTail(t: seq<Byte>) {
    NoMarker(t, SOI_BYTE, 0) || exists k: nat :: FirstMarker(t, SOI_BYTE, 0, k) && Unfinished(t[k..])
  }

  /** Garbage and frames in turn. */
  function Weave(garbage: seq<seq<Byte>>, frames: seq<seq<Byte>>): seq<Byte>
    requires |garbage| == |frames|
  {
    if frames == [] then [] else garbage[0] + (frames[0] + Weave(garbage[1..], frames[1..]))
  }

  /** The stream read as SOI-free garbage, frames and a tail, in order and with nothing left out. */
  ghost predicate Reads(buf: seq<Byte>, garbage: seq<seq<Byte>>, frames: seq<seq<Byte>>, tail: seq<Byte>) {
    && |garbage| == |frames|
    && buf == Weave(garbage, frames) + tail
    && (forall i :: 0 <= i < |garbage| ==> NoMarker(garbage[i], SOI_BYTE, 0))
    && (forall i :: 0 <= i < |frames| ==> IsFrame(frames[i]))
    && IsTail(tail)
  }

  lemma {:induction false} TailHasNoFrames(t: seq<Byte>)
    requires IsTail(t)
    ensures Split(t).frames == []
  {
    if NoMarker(t, SOI_BYTE, 0) {
      FindNone(t, SOI_BYTE, 0);
    } else {
      var k: nat :| FirstMarker(t, SOI_BYTE, 0, k) && Unfinished(t[k..]);
      FindIs(t, SOI_BYTE, 0, k);
      SoiAtFront(t, k);
      SplitUnfinished(t[k..]);
    }
  }

  lemma {:induction false} NoSoiBeforeFrame(g: seq<Byte>, f: seq<Byte>)
    requires NoMarker(g, SOI_BYTE, 0) && f != [] && f[0] == 0xFF
    ensures forall i :: 0 <= i < |g| ==> !MarkerAt(g + f, SOI_BYTE, i)
  {
    forall i | 0 <= i < |g|
      ensures !MarkerAt(g + f, SOI_BYTE, i)
    {
      assert !MarkerAt(g, SOI_BYTE, i);
    }
  }

  lemma {:induction false} SplitAfterGarbage(g: seq<Byte>, f: seq<Byte>, rest: seq<Byte>)
    requires NoMarker(g, SOI_BYTE, 0) && IsFrame(f)
    ensures Split(g + (f + rest)).frames == [f] + Split(rest).frames
  {
    NoSoiBeforeFrame(g, f + rest);
    GarbageIsIgnored(g, f + rest);
    FindIs(f, EOI_BYTE, 2, |f| - 2);
    FindInPrefix(f, rest, EOI_BYTE, 2);
    SplitFrame(f + rest, |f| - 2);
    DropOfConcat(f, rest, |f|);
    assert f[|f|..] + rest == rest;
  }

  /** However a stream is read as garbage, frames and tail, the frames are those the splitter cuts. */
  lemma {:induction false} ReadingIsUnique(buf: seq<Byte>, garbage: seq<seq<Byte>>, frames: seq<seq<Byte>>,
                                           tail: seq<Byte>)
    requires Reads(buf, garbage, frames, tail)
    ensures Split(buf).frames == frames
    decreases |frames|
  {
    if frames == [] {
      assert buf == tail;
      TailHasNoFrames(tail);
    } else {
      var g, f, more := garbage[0], frames[0], Weave(garbage[1..], frames[1..]);
      ConcatAssociates(g, f + more, tail);
      ConcatAssociates(f, more, tail);
      SplitAfterGarbage(g, f, more + tail);
      ReadingIsUnique(more + tail, garbage[1..], frames[1..], tail);
    }
  }

  lemma {:induction false} FrameIsFrame(c: seq<Byte>, e: nat)
    requires MarkerAt(c, SOI_BYTE, 0) && |c| >= 4 && Find(c, EOI_BYTE, 2) == Some(e)
    ensures e + 2 <= |c| && IsFrame(c[..e + 2])
  {
    FindCorrect(c, EOI_BYTE, 2);
    var f := c[..e + 2];
    forall k | 2 <= k < e
      ensures !MarkerAt(f, EOI_BYTE, k)
    {
      assert !MarkerAt(c, EOI_BYTE, k);
    }
  }

  /** The kept bytes are the end of the tail, and what was thrown away before them holds no SOI. */
  ghost predicate EndsIn(tail: seq<Byte>, residue: seq<Byte>) {
    && |residue| <= |tail|
    && tail == tail[..|tail| - |residue|] + residue
    && NoMarker(tail[..|tail| - |residue|], SOI_BYTE, 0)
  }

  lemma {:induction false} GarbageTail(buf: seq<Byte>)
    requires NoMarker(buf, SOI_BYTE, 0)
    ensures Split(buf).frames == [] && EndsIn(buf, Split(buf).residue)
  {
    FindNone(buf, SOI_BYTE, 0);
    var n := |buf| - |Split(buf).residue|;
    assert buf == buf[..n] + buf[n..];
    assert Split(buf).residue == buf[n..];
    forall i | 0 <= i < n
      ensures !MarkerAt(buf[..n], SOI_BYTE, i)
    {
      assert !MarkerAt(buf, SOI_BYTE, i);
    }
  }

  lemma {:induction false} UnfinishedTail(buf: seq<Byte>, start: nat)
    requires FirstMarker(buf, SOI_BYTE, 0, start) && Unfinished(buf[start..])
    ensures Split(buf) == Outcome([], buf[start..]) && IsTail(buf) && EndsIn(buf, buf[start..])
  {
    FindIs(buf, SOI_BYTE, 0, start);
    SoiAtFront(buf, start);
    SplitUnfinished(buf[start..]);
    GarbageBeforeSoi(buf, start);
    assert buf == buf[..start] + buf[start..];
  }

  lemma {:induction false} TailAlone(buf: seq<Byte>)
    requires IsTail(buf)
    ensures Reads(buf, [], [], buf)
  {
    assert Weave([], []) + buf == buf;
  }

  /** Every stream can be so read, with the splitter's frames and its residue at the end. */
  lemma {:induction false} SplitReads(buf: seq<Byte>) returns (garbage: seq<seq<Byte>>, tail: seq<Byte>)
    ensures Reads(buf, garbage, Split(buf).frames, tail) && EndsIn(tail, Split(buf).residue)
    decreases |buf|
  {
    FindCorrect(buf, SOI_BYTE, 0);
    match Find(buf, SOI_BYTE, 0)
    case None =>
      garbage, tail := [], buf;
      GarbageTail(buf);
      TailAlone(buf);
    case Some(start) =>
      var c := buf[start..];
      SoiAtFront(buf, start);
      if Unfinished(c) {
        garbage, tail := [], buf;
        UnfinishedTail(buf, start);
        TailAlone(buf);
      } else {
        var e := Find(c, EOI_BYTE, 2).value;
        var f, rest := c[..e + 2], c[e + 2..];
        SplitFrame(c, e);
        FrameIsFrame(c, e);
        GarbageBeforeSoi(buf, start);
        garbage, tail := SplitReads(rest);
        ReadsMore(buf[..start], f, rest, garbage, Split(rest).frames, tail);
        Reassemble(buf, start, e + 2);
        garbage := [buf[..start]] + garbage;
      }
  }

  lemma {:induction false} Reassemble(buf: seq<Byte>, start: nat, n: nat)
    requires start + n <= |buf|
    ensures buf == buf[..start] + (buf[start..][..n] + buf[start..][n..])
  {
  }

  lemma {:induction false} GarbageBeforeSoi(buf: seq<Byte>, start: nat)
    requires FirstMarker(buf, SOI_BYTE, 0, start)
    ensures NoMarker(buf[..start], SOI_BYTE, 0)
  {
    forall i | 0 <= i < start
      ensures !MarkerAt(buf[..start], SOI_BYTE, i)
    {
      assert !MarkerAt(buf, SOI_BYTE, i);
    }
  }

  lemma {:induction false} ReadsMore(g: seq<Byte>, f: seq<Byte>, rest: seq<Byte>, garbage: seq<seq<Byte>>,
                                     frames: seq<seq<Byte>>, tail: seq<Byte>)
    requires Reads(rest, garbage, frames, tail) && NoMarker(g, SOI_BYTE, 0) && IsFrame(f)
    ensures Reads(g + (f + rest), [g] + garbage, [f] + frames, tail)
  {
  }

  // ----- The cap -----

  /** The buffer after a run of the read loop. */
  function Kept(cap: nat, buf: seq<Byte>, chunks: seq<seq<Byte>>): seq<Byte>
    decreases |chunks|
  {
    if chunks == [] then buf else Kept(cap, Capped(cap, Split(buf + chunks[0])).residue, chunks[1..])
  }

  /** With the cap, the buffer never exceeds it between reads. */
  lemma {:induction false} KeptWithinCap(cap: nat, buf: seq<Byte>, chunks: seq<seq<Byte>>)
    requires |buf| <= cap
    ensures |Kept(cap, buf, chunks)| <= cap
    decreases |chunks|
  {
    if chunks != [] {
      KeptWithinCap(cap, Capped(cap, Split(buf + chunks[0])).residue, chunks[1..]);
    }
  }

  // ----- The markers, as bytes -----

  /** 0xFF 0xD8, bytes in which no 0xFF 0xD9 starts, and 0xFF 0xD9. */
  predicate Jpeg(f: seq<Byte>) {
    && |f| >= 4 && f[0] == 0xFF && f[1] == 0xD8 && f[|f| - 2] == 0xFF && f[|f| - 1] == 0xD9
    && forall k | 2 <= k < |f| - 2 :: !(f[k] == 0xFF && f[k + 1] == 0xD9)
  }

  /** No 0xFF 0xD8 in it. */
  predicate NoStart(g: seq<Byte>) {
    forall k | 0 <= k < |g| - 1 :: !(g[k] == 0xFF && g[k + 1] == 0xD8)
  }

  lemma {:induction false} JpegIsFrame(f: seq<Byte>)
    ensures Jpeg(f) <==> IsFrame(f)
  {
    if Jpeg(f) {
      forall k | 2 <= k < |f| - 2
        ensures !MarkerAt(f, EOI_BYTE, k)
      {
      }
    }
    if IsFrame(f) {
      forall k | 2 <= k < |f| - 2
        ensures !(f[k] == 0xFF && f[k + 1] == 0xD9)
      {
        assert !MarkerAt(f, EOI_BYTE, k);
      }
    }
  }

  lemma {:induction false} NoStartIsNoMarker(g: seq<Byte>)
    ensures NoStart(g) <==> NoMarker(g, SOI_BYTE, 0)
  {
    if NoMarker(g, SOI_BYTE, 0) {
      forall k | 0 <= k < |g| - 1
        ensures !(g[k] == 0xFF && g[k + 1] == 0xD8)
      {
        assert !MarkerAt(g, SOI_BYTE, k);
      }
    }
  }

  /**
    Whatever the stream, only JPEGs are cut out of it; and a JPEG after bytes without a start
    marker is cut out whole, at once and as the first, however many more follow.
   */
  lemma {:induction false} FramesAreJpegs(buf: seq<Byte>, g: seq<Byte>, f: seq<Byte>, rest: seq<Byte>)
    ensures forall i | 0 <= i < |Split(buf).frames| :: Jpeg(Split(buf).frames[i])
    ensures NoStart(g) && Jpeg(f) ==> Split(g + (f + rest)).frames == [f] + Split(rest).frames
  {
    var garbage, tail := SplitReads(buf);
    forall i | 0 <= i < |Split(buf).frames|
      ensures Jpeg(Split(buf).frames[i])
    {
      JpegIsFrame(Split(buf).frames[i]);
    }
    JpegIsFrame(f);
    NoStartIsNoMarker(g);
    if NoStart(g) && Jpeg(f) {
      SplitAfterGarbage(g, f, rest);
    }
  }

  /** 0xFF 0xD8 and then no 0xFF 0xD9. */
  predicate Begun(c: seq<Byte>) {
    && |c| >= 2 && c[0] == 0xFF && c[1] == 0xD8
    && forall k | 2 <= k < |c| - 1 :: !(c[k] == 0xFF && c[k + 1] == 0xD9)
  }

  /** What stays in the buffer: nothing past 20 MiB; a last 0xFF of bytes without a start; or what began. */
  lemma {:induction false} BufferStays(buf: seq<Byte>)
    ensures var kept := Capped(MAX_BUFFER, Split(buf)).residue;
            && |kept| <= 20971520
            && (NoStart(buf) && |buf| >= 2 ==> kept == if buf[|buf| - 1] == 0xFF then [0xFF] else [])
            && (Begun(buf) ==> kept == if |buf| > 20971520 then [] else buf)
  {
    NoStartIsNoMarker(buf);
    FindCorrect(buf, SOI_BYTE, 0);
    FindCorrect(buf, EOI_BYTE, 2);
    if Begun(buf) {
      assert MarkerAt(buf, SOI_BYTE, 0);
      SplitUnfinished(buf);
    }
  }

  // ----- When the chunks matter -----

  /** A frame's place in the stream. */
  datatype Span = Span(start: nat, end: nat)

  /** The first frame of `s`, if there is a complete one. */
  function First(s: seq<Byte>): (r: Option<Span>)
    ensures r.Some? ==> r.value.start < r.value.end <= |s|
  {
    var soi := Find(s, SOI_BYTE, 0);
    if soi.None? then None
    else
      var eoi := Find(s[soi.value..], EOI_BYTE, 2);
      if eoi.None? then None else Some(Span(soi.value, soi.value + eoi.value + 2))
  }

  /** Is `p` the place of one of the frames of `s`, a stream that begins at `at`? */
  predicate IsPlace(s: seq<Byte>, at: nat, p: Span)
    decreases |s|
  {
    var f := First(s);
    f.Some? && (p == Span(at + f.value.start, at + f.value.end) || IsPlace(s[f.value.end..], at + f.value.end, p))
  }

  lemma {:induction false} PlaceIsWithin(s: seq<Byte>, at: nat, p: Span)
    requires IsPlace(s, at, p)
    ensures at <= p.start < p.end <= at + |s|
    decreases |s|
  {
    var f := First(s).value;
    if p != Span(at + f.start, at + f.end) {
      PlaceIsWithin(s[f.end..], at + f.end, p);
    }
  }

  /** The first frame, here from `from` to `to`, then those after it. */
  lemma {:induction false} PlacesFrom(s: seq<Byte>, at: nat, f: Span, from: nat, to: nat, p: Span)
    requires First(s) == Some(f) && from == at + f.start && to == at + f.end
    ensures IsPlace(s, at, p) <==> p == Span(from, to) || IsPlace(s[f.end..], to, p)
  {
  }

  lemma {:induction false} FirstAtSoi(c: seq<Byte>)
    requires MarkerAt(c, SOI_BYTE, 0)
    ensures First(c) == if Unfinished(c) then None else Some(Span(0, Find(c, EOI_BYTE, 2).value + 2))
  {
    FindIs(c, SOI_BYTE, 0, 0);
    assert c[0..] == c;
  }

  lemma {:induction false} FirstAfterGarbage(garbage: seq<Byte>, rest: seq<Byte>)
    requires forall i :: 0 <= i < |garbage| ==> !MarkerAt(garbage + rest, SOI_BYTE, i)
    ensures var f := First(rest);
            First(garbage + rest) ==
            if f.None? then None else Some(Span(|garbage| + f.value.start, |garbage| + f.value.end))
  {
    FindAfterGarbage(garbage, rest);
    var soi := Find(rest, SOI_BYTE, 0);
    if soi.Some? {
      DropPast(garbage, rest, soi.value);
    }
  }

  lemma {:induction false} PlacesAfterGarbage(garbage: seq<Byte>, rest: seq<Byte>, at: nat, next: nat, p: Span)
    requires forall i :: 0 <= i < |garbage| ==> !MarkerAt(garbage + rest, SOI_BYTE, i)
    requires next == at + |garbage|
    ensures IsPlace(garbage + rest, at, p) <==> IsPlace(rest, next, p)
  {
    var n := |garbage|;
    FirstAfterGarbage(garbage, rest);
    if First(rest).Some? {
      var f := First(rest).value;
      var from, to := next + f.start, next + f.end;
      DropPast(garbage, rest, f.end);
      SamePlaces(garbage + rest, at, Span(n + f.start, n + f.end), rest, next, f, from, to, p);
    }
  }

  lemma {:induction false} SamePlaces(s: seq<Byte>, at: nat, f: Span, t: seq<Byte>, bt: nat, g: Span, from: nat,
                                      to: nat, p: Span)
    requires First(s) == Some(f) && from == at + f.start && to == at + f.end
    requires First(t) == Some(g) && from == bt + g.start && to == bt + g.end
    requires s[f.end..] == t[g.end..]
    ensures IsPlace(s, at, p) <==> IsPlace(t, bt, p)
  {
    PlacesFrom(s, at, f, from, to, p);
    PlacesFrom(t, bt, g, from, to, p);
  }

  lemma {:induction false} PlacesFromSoi(s: seq<Byte>, start: nat, at: nat, next: nat, p: Span)
    requires Find(s, SOI_BYTE, 0) == Some(start) && next == at + start
    ensures IsPlace(s, at, p) <==> IsPlace(s[start..], next, p)
  {
    FindCorrect(s, SOI_BYTE, 0);
    assert s[..start] + s[start..] == s;
    PlacesAfterGarbage(s[..start], s[start..], at, next, p);
  }

  lemma {:induction false} PlacesAppendAtSoi(c: seq<Byte>, b: seq<Byte>, at: nat, r: seq<Byte>, next: nat, p: Span)
    requires MarkerAt(c, SOI_BYTE, 0) && r == Split(c).residue && next == at + |c| - |r|
    ensures IsPlace(c + b, at, p) <==> IsPlace(c, at, p) || IsPlace(r + b, next, p)
    decreases |c|, 0
  {
    FirstAtSoi(c);
    if Unfinished(c) {
      SplitUnfinished(c);
    } else {
      var end := Find(c, EOI_BYTE, 2).value + 2;
      var rest, to := c[end..], at + end;
      SplitFrame(c, end - 2);
      FindInPrefix(c, b, EOI_BYTE, 2);
      FirstAtSoi(c + b);
      PlacesFrom(c, at, Span(0, end), at, to, p);
      PlacesFrom(c + b, at, Span(0, end), at, to, p);
      DropOfConcat(c, b, end);
      PlacesAppend(rest, b, to, r, next, p);
    }
  }

  /** Frames begun and ended in `a`, and those of the kept bytes and the rest, at their places. */
  lemma {:induction false} PlacesAppend(a: seq<Byte>, b: seq<Byte>, at: nat, r: seq<Byte>, next: nat, p: Span)
    requires r == Split(a).residue && next == at + |a| - |r|
    ensures IsPlace(a + b, at, p) <==> IsPlace(a, at, p) || IsPlace(r + b, next, p)
    decreases |a|, 1
  {
    match Find(a, SOI_BYTE, 0)
    case None =>
      PlacesAppendToGarbage(a, b, at, r, next, p);
    case Some(start) =>
      var c, mid := a[start..], at + start;
      SoiAtFront(a, start);
      FindInPrefix(a, b, SOI_BYTE, 0);
      PlacesFromSoi(a, start, at, mid, p);
      PlacesFromSoi(a + b, start, at, mid, p);
      DropOfConcat(a, b, start);
      PlacesAppendAtSoi(c, b, mid, r, next, p);
  }

  lemma {:induction false} PlacesAppendToGarbage(a: seq<Byte>, b: seq<Byte>, at: nat, r: seq<Byte>, next: nat, p: Span)
    requires Find(a, SOI_BYTE, 0).None? && r == Split(a).residue && next == at + |a| - |r|
    ensures IsPlace(a + b, at, p) <==> IsPlace(a, at, p) || IsPlace(r + b, next, p)
  {
    var n := |a| - |r|;
    FindCorrect(a, SOI_BYTE, 0);
    assert r == a[n..];
    assert a + b == a[..n] + (r + b);
    forall i | 0 <= i < n
      ensures !MarkerAt(a[..n] + (r + b), SOI_BYTE, i)
    {
      assert !MarkerAt(a, SOI_BYTE, i);
    }
    PlacesAfterGarbage(a[..n], r + b, at, next, p);
  }

  function Total(frames: seq<seq<Byte>>): nat {
    if frames == [] then 0 else |frames[0]| + Total(frames[1..])
  }

  lemma {:induction false} TotalCons(f: seq<Byte>, frames: seq<seq<Byte>>)
    ensures Total([f] + frames) == |f| + Total(frames)
  {
    ConcatSplits([f], frames);
  }

  lemma {:induction false} TotalConcat(a: seq<seq<Byte>>, b: seq<seq<Byte>>)
    ensures Total(a + b) == Total(a) + Total(b)
    decreases |a|
  {
    if a == [] {
      assert a + b == b;
    } else {
      assert (a + b)[1..] == a[1..] + b;
      TotalConcat(a[1..], b);
    }
  }

  /** What is left of a frame that lost its beginning is one frame, shorter, or garbage. */
  lemma {:induction false} RestOfFrame(f: seq<Byte>, k: nat, rest: seq<Byte>)
    requires IsFrame(f) && 0 < k < |f|
    ensures var frames, more := Split(f[k..] + rest).frames, Split(rest).frames;
            frames == more || exists j: nat | 0 < j < |f| :: frames == [f[j..]] + more
  {
    var u := f[k..];
    FindCorrect(u, SOI_BYTE, 0);
    match Find(u, SOI_BYTE, 0)
    case None =>
      forall i | 0 <= i < |u|
        ensures !MarkerAt(u + rest, SOI_BYTE, i)
      {
        assert !MarkerAt(u, SOI_BYTE, i);
      }
      GarbageIsIgnored(u, rest);
    case Some(j) =>
      InnerFrame(f, k + j);
      GarbageBeforeSoi(u, j);
      SplitAfterGarbage(u[..j], f[k + j..], rest);
      SlicesMeet(f, k, j, rest);
  }

  lemma {:induction false} SlicesMeet(f: seq<Byte>, k: nat, j: nat, rest: seq<Byte>)
    requires k + j <= |f|
    ensures f[k..][..j] + (f[k + j..] + rest) == f[k..] + rest
  {
  }

  lemma {:induction false} DropPast(a: seq<Byte>, b: seq<Byte>, k: nat)
    requires k <= |b|
    ensures (a + b)[|a| + k..] == b[k..]
  {
  }

  lemma {:induction false} RestOfFrameIsShorter(f: seq<Byte>, k: nat, rest: seq<Byte>)
    requires IsFrame(f) && 0 < k < |f|
    ensures Total(Split(f[k..] + rest).frames) < |f| + Total(Split(rest).frames)
  {
    RestOfFrame(f, k, rest);
    var frames, more := Split(f[k..] + rest).frames, Split(rest).frames;
    if frames != more {
      var j: nat :| 0 < j < |f| && frames == [f[j..]] + more;
      TotalCons(f[j..], more);
    }
  }

  lemma {:induction false} InnerFrame(f: seq<Byte>, k: nat)
    requires IsFrame(f) && MarkerAt(f, SOI_BYTE, k)
    ensures IsFrame(f[k..])
  {
    var g := f[k..];
    assert k + 1 != |f| - 1 && k + 1 != |f| - 2;
    forall i | 2 <= i < |g| - 2
      ensures !MarkerAt(g, EOI_BYTE, i)
    {
      assert !MarkerAt(f, EOI_BYTE, k + i);
    }
  }

  /** Bytes kept from a call: at most one byte, or an unfinished frame. */
  predicate IsKept(r: seq<Byte>) {
    |r| <= 1 || Unfinished(r)
  }

  lemma {:induction false} ResidueIsKept(buf: seq<Byte>)
    ensures IsKept(Split(buf).residue)
    decreases |buf|
  {
    if |buf| >= 2 && Find(buf, SOI_BYTE, 0).Some? {
      var start := Find(buf, SOI_BYTE, 0).value;
      SoiAtFront(buf, start);
      var c := buf[start..];
      if !Unfinished(c) {
        var e := Find(c, EOI_BYTE, 2).value;
        SplitFrame(c, e);
        ResidueIsKept(c[e + 2..]);
      }
    }
  }

  /** An unfinished frame holds no complete one, wherever one looks in it. */
  lemma {:induction false} UnfinishedHasNone(c: seq<Byte>, k: nat)
    requires Unfinished(c) && k <= |c|
    ensures Split(c[k..]).frames == [] && First(c[k..]).None?
  {
    var u := c[k..];
    FindCorrect(c, EOI_BYTE, 2);
    FindCorrect(u, SOI_BYTE, 0);
    if Find(u, SOI_BYTE, 0).Some? {
      var j := Find(u, SOI_BYTE, 0).value;
      var d := u[j..];
      SoiAtFront(u, j);
      assert d == c[k + j..];
      forall i | 2 <= i < |d|
        ensures !MarkerAt(d, EOI_BYTE, i)
      {
        assert !MarkerAt(c, EOI_BYTE, k + j + i);
      }
      FindNone(d, EOI_BYTE, 2);
      SplitUnfinished(d);
    }
  }

  /** Does the stream go on to finish a frame of which `r` is the beginning? */
  predicate Begins(r: seq<Byte>, b: seq<Byte>) {
    r != [] && MarkerAt(r + b, SOI_BYTE, 0) && !Unfinished(r + b)
  }

  lemma {:induction false} SuffixSplits(c: seq<Byte>, k: nat, n: nat)
    requires k <= n <= |c|
    ensures c[k..] == c[..n][k..] + c[n..]
  {
  }

  /** Dropping the beginning of a frame loses bytes of frames. */
  lemma {:induction false} DroppingBeginning(r: seq<Byte>, b: seq<Byte>) returns (end: nat)
    requires IsKept(r) && Begins(r, b)
    ensures Total(Split(b).frames) < Total(Split(r + b).frames)
    ensures First(r + b) == Some(Span(0, end)) && |r| < end
  {
    var c := r + b;
    var e := Find(c, EOI_BYTE, 2).value;
    end := e + 2;
    SplitFrame(c, e);
    FirstAtSoi(c);
    FrameIsFrame(c, e);
    var f, rest := c[..end], c[end..];
    FindCorrect(c, EOI_BYTE, 2);
    FindCorrect(r, EOI_BYTE, 2);
    assert e + 1 < |r| ==> MarkerAt(r, EOI_BYTE, e);
    ConcatSplits(r, b);
    SuffixSplits(c, |r|, end);
    RestOfFrameIsShorter(f, |r|, rest);
    TotalCons(f, Split(rest).frames);
  }

  /** Dropping anything else changes neither the frames nor their places. */
  lemma {:induction false} DroppingOther(r: seq<Byte>, b: seq<Byte>)
    requires IsKept(r) && !Begins(r, b)
    ensures Split(b).frames == Split(r + b).frames
    ensures MarkerAt(r + b, SOI_BYTE, 0) && r != [] ==> First(r + b).None? && First(b).None?
  {
    if r == [] {
      assert r + b == b;
    } else if MarkerAt(r + b, SOI_BYTE, 0) {
      ConcatSplits(r, b);
      UnfinishedHasNone(r + b, |r|);
      FirstAtSoi(r + b);
      SplitUnfinished(r + b);
    } else {
      GarbageIsIgnored(r, b);
    }
  }

  lemma {:induction false} DroppingOtherPlace(r: seq<Byte>, b: seq<Byte>, at: nat, cut: nat, p: Span)
    requires IsKept(r) && !Begins(r, b) && cut == at + |r|
    ensures IsPlace(r + b, at, p) <==> IsPlace(b, cut, p)
  {
    DroppingOther(r, b);
    if r == [] {
      assert r + b == b;
    } else if !MarkerAt(r + b, SOI_BYTE, 0) {
      PlacesAfterGarbage(r, b, at, cut, p);
    }
  }

  /** The ends of the chunks of a stream of which `at` bytes are read. */
  function Cuts(at: nat, chunks: seq<seq<Byte>>): (cuts: seq<nat>)
    ensures |cuts| == |chunks| && forall j | 0 <= j < |cuts| :: at <= cuts[j]
    decreases |chunks|
  {
    if chunks == [] then [] else [at + |chunks[0]|] + Cuts(at + |chunks[0]|, chunks[1..])
  }

  /** A cut inside a frame comes at most `cap` bytes after its start. */
  predicate Fits(cap: nat, p: Span, cut: nat) {
    p.start < cut < p.end ==> cut - p.start <= cap
  }

  predicate FitsAll(cap: nat, p: Span, cuts: seq<nat>) {
    forall j | 0 <= j < |cuts| :: Fits(cap, p, cuts[j])
  }

  lemma {:induction false} FitsAllStep(cap: nat, p: Span, cut: nat, cuts: seq<nat>)
    ensures FitsAll(cap, p, [cut] + cuts) <==> Fits(cap, p, cut) && FitsAll(cap, p, cuts)
  {
    var all := [cut] + cuts;
    if FitsAll(cap, p, all) {
      assert all[0] == cut;
      forall j | 0 <= j < |cuts|
        ensures Fits(cap, p, cuts[j])
      {
        assert all[j + 1] == cuts[j];
      }
    }
  }

  /** No frame of the stream that begins at `at` is cut too late. */
  ghost predicate AllFit(cap: nat, s: seq<Byte>, at: nat, cuts: seq<nat>) {
    forall p: Span :: IsPlace(s, at, p) ==> FitsAll(cap, p, cuts)
  }

  /** The cap never adds bytes to the frames. */
  lemma {:induction false} FeedAllTotal(cap: nat, buf: seq<Byte>, chunks: seq<seq<Byte>>)
    ensures Total(FeedAll(cap, buf, chunks)) <= Total(Split(buf + Concat(chunks)).frames)
    decreases |chunks|
  {
    if chunks != [] {
      var a, b := buf + chunks[0], Concat(chunks[1..]);
      var r, kept := Split(a).residue, Capped(cap, Split(a)).residue;
      FeedAllTotal(cap, kept, chunks[1..]);
      ConcatAssociates(buf, chunks[0], b);
      SplitAppend(a, b);
      TotalConcat(Split(a).frames, Split(r + b).frames);
      TotalConcat(Split(a).frames, FeedAll(cap, kept, chunks[1..]));
      ResidueIsKept(a);
      if |r| > cap {
        assert [] + b == b;
        if Begins(r, b) {
          var _ := DroppingBeginning(r, b);
        } else {
          DroppingOther(r, b);
        }
      }
    }
  }

  lemma {:induction false} PrefixCancels<T>(a: seq<T>, b: seq<T>, c: seq<T>)
    ensures a + b == a + c <==> b == c
  {
    ConcatSplits(a, b);
    ConcatSplits(a, c);
  }

  lemma {:induction false} FeedStep(cap: nat, buf: seq<Byte>, chunks: seq<seq<Byte>>, a: seq<Byte>, r: seq<Byte>,
                                    kept: seq<Byte>)
    requires chunks != [] && a == buf + chunks[0] && r == Split(a).residue && kept == Capped(cap, Split(a)).residue
    ensures FeedAll(cap, buf, chunks) == Split(buf + Concat(chunks)).frames
            <==> FeedAll(cap, kept, chunks[1..]) == Split(r + Concat(chunks[1..])).frames
  {
    var b, fed := Concat(chunks[1..]), FeedAll(cap, kept, chunks[1..]);
    ConcatAssociates(buf, chunks[0], b);
    SplitAppend(a, b);
    PrefixCancels(Split(a).frames, fed, Split(r + b).frames);
    assert FeedAll(cap, buf, chunks) == Split(a).frames + fed;
  }

  /** A run from `buf`, `cut` bytes into the stream. */
  lemma {:induction false} FramesUnaffected(cap: nat, at: nat, buf: seq<Byte>, cut: nat, chunks: seq<seq<Byte>>)
    requires Split(buf).frames == [] && cut == at + |buf|
    ensures FeedAll(cap, buf, chunks) == Split(buf + Concat(chunks)).frames
            <==> AllFit(cap, buf + Concat(chunks), at, Cuts(cut, chunks))
    decreases |chunks|, 1
  {
    if chunks == [] {
      assert buf + Concat(chunks) == buf;
    } else {
      var a, more := buf + chunks[0], chunks[1..];
      var r, kept := Split(a).residue, Capped(cap, Split(a)).residue;
      var next, end := at + |a| - |r|, cut + |chunks[0]|;
      FeedStep(cap, buf, chunks, a, r, kept);
      FitChunk(cap, at, buf, cut, chunks, r, next, end);
      KeptStep(cap, next, a, r, kept, end, more);
    }
  }

  lemma {:induction false} FitChunk(cap: nat, at: nat, buf: seq<Byte>, cut: nat, chunks: seq<seq<Byte>>, r: seq<Byte>,
                                    next: nat, end: nat)
    requires chunks != [] && cut == at + |buf| && r == Split(buf + chunks[0]).residue
    requires end == cut + |chunks[0]| && next == end - |r|
    ensures AllFit(cap, buf + Concat(chunks), at, Cuts(cut, chunks))
            <==> AllFit(cap, r + Concat(chunks[1..]), next, [end] + Cuts(end, chunks[1..]))
  {
    ConcatAssociates(buf, chunks[0], Concat(chunks[1..]));
    FitStep(cap, buf + chunks[0], Concat(chunks[1..]), at, r, next, end, Cuts(end, chunks[1..]));
  }

  /** Frames that end before every cut do not matter. */
  lemma {:induction false} FitStep(cap: nat, a: seq<Byte>, b: seq<Byte>, at: nat, r: seq<Byte>, next: nat, end: nat,
                                   cuts: seq<nat>)
    requires r == Split(a).residue && next == at + |a| - |r| && end == at + |a|
    requires forall j | 0 <= j < |cuts| :: end <= cuts[j]
    ensures AllFit(cap, a + b, at, [end] + cuts) <==> AllFit(cap, r + b, next, [end] + cuts)
  {
    forall p: Span
      ensures IsPlace(r + b, next, p) ==> IsPlace(a + b, at, p)
      ensures IsPlace(a + b, at, p) && !IsPlace(r + b, next, p) ==> FitsAll(cap, p, [end] + cuts)
    {
      PlacesAppend(a, b, at, r, next, p);
      if IsPlace(a, at, p) {
        PlaceIsWithin(a, at, p);
      }
    }
  }

  /** The end of a chunk: the kept bytes are within the cap, or begin a frame and are lost, or are harmless. */
  lemma {:induction false} KeptStep(cap: nat, at: nat, a: seq<Byte>, r: seq<Byte>, kept: seq<Byte>, cut: nat,
                                    chunks: seq<seq<Byte>>)
    requires r == Split(a).residue && kept == (if |r| > cap then [] else r) && cut == at + |r|
    ensures FeedAll(cap, kept, chunks) == Split(r + Concat(chunks)).frames
            <==> AllFit(cap, r + Concat(chunks), at, [cut] + Cuts(cut, chunks))
    decreases |chunks|, 2
  {
    var b, cuts := Concat(chunks), Cuts(cut, chunks);
    ResidueHasNoFrame(a);
    ResidueIsKept(a);
    assert [] + b == b;
    if |r| > cap && Begins(r, b) {
      var end := DroppingBeginning(r, b);
      FeedAllTotal(cap, [], chunks);
      var p := Span(at, at + end);
      FitsAllStep(cap, p, cut, cuts);
      assert IsPlace(r + b, at, p) && !FitsAll(cap, p, [cut] + cuts);
    } else {
      FirstCutFits(cap, r, b, at, cut, cuts);
      if |r| <= cap {
        FramesUnaffected(cap, at, r, cut, chunks);
      } else {
        DroppingOther(r, b);
        FramesUnaffected(cap, cut, [], cut, chunks);
      }
    }
  }

  /** A cut that is early, or in no frame, does not matter; in no frame, what comes before it does not either. */
  lemma {:induction false} FirstCutFits(cap: nat, r: seq<Byte>, b: seq<Byte>, at: nat, cut: nat, cuts: seq<nat>)
    requires IsKept(r) && cut == at + |r| && (|r| <= cap || !Begins(r, b))
    ensures AllFit(cap, r + b, at, [cut] + cuts) <==> AllFit(cap, r + b, at, cuts)
    ensures |r| > cap ==> (AllFit(cap, r + b, at, cuts) <==> AllFit(cap, b, cut, cuts))
  {
    forall p: Span
      ensures |r| > cap ==> (IsPlace(r + b, at, p) <==> IsPlace(b, cut, p))
      ensures IsPlace(r + b, at, p) ==> (FitsAll(cap, p, [cut] + cuts) <==> FitsAll(cap, p, cuts))
    {
      FitsAllStep(cap, p, cut, cuts);
      if |r| > cap {
        DroppingOtherPlace(r, b, at, cut, p);
        if IsPlace(b, cut, p) {
          PlaceIsWithin(b, cut, p);
        }
      } else if IsPlace(r + b, at, p) {
        PlaceIsWithin(r + b, at, p);
      }
    }
  }

  /** Every way of cutting a stream no longer than the cap into chunks gives the frames of one call on it all. */
  lemma {:induction false} ChunkInvariance(cap: nat, chunks: seq<seq<Byte>>)
    requires |Concat(chunks)| <= cap
    ensures FeedAll(cap, [], chunks) == Split(Concat(chunks)).frames
  {
    var s := Concat(chunks);
    assert [] + s == s;
    FramesUnaffected(cap, 0, [], 0, chunks);
    forall p: Span | IsPlace(s, 0, p)
      ensures FitsAll(cap, p, Cuts(0, chunks))
    {
      PlaceIsWithin(s, 0, p);
    }
  }

  /** Where frame `i` of a reading lies. */
  function PlaceOf(garbage: seq<seq<Byte>>, frames: seq<seq<Byte>>, i: nat, at: nat): Span
    requires i < |garbage| == |frames|
    decreases i
  {
    var start := at + |garbage[0]|;
    if i == 0 then Span(start, start + |frames[0]|) else PlaceOf(garbage[1..], frames[1..], i - 1, start + |frames[0]|)
  }

  /** Is `p` the place of a frame of the reading? */
  ghost predicate Placed(garbage: seq<seq<Byte>>, frames: seq<seq<Byte>>, at: nat, p: Span)
    requires |garbage| == |frames|
  {
    exists i | 0 <= i < |frames| :: p == PlaceOf(garbage, frames, i, at)
  }

  lemma {:induction false} PlacedStep(garbage: seq<seq<Byte>>, frames: seq<seq<Byte>>, at: nat, from: nat, to: nat,
                                      p: Span)
    requires |garbage| == |frames| > 0 && from == at + |garbage[0]| && to == from + |frames[0]|
    ensures Placed(garbage, frames, at, p) <==> p == Span(from, to) || Placed(garbage[1..], frames[1..], to, p)
  {
    if Placed(garbage[1..], frames[1..], to, p) {
      var i :| 0 <= i < |frames[1..]| && p == PlaceOf(garbage[1..], frames[1..], i, to);
      assert p == PlaceOf(garbage, frames, i + 1, at);
    }
    if p == Span(from, to) {
      assert p == PlaceOf(garbage, frames, 0, at);
    }
    if Placed(garbage, frames, at, p) {
      var i :| 0 <= i < |frames| && p == PlaceOf(garbage, frames, i, at);
      if i > 0 {
        assert p == PlaceOf(garbage[1..], frames[1..], i - 1, to);
      }
    }
  }

  lemma {:induction false} TailHasNoFirst(t: seq<Byte>)
    requires IsTail(t)
    ensures First(t).None?
  {
    if NoMarker(t, SOI_BYTE, 0) {
      FindNone(t, SOI_BYTE, 0);
    } else {
      var k: nat :| FirstMarker(t, SOI_BYTE, 0, k) && Unfinished(t[k..]);
      FindIs(t, SOI_BYTE, 0, k);
    }
  }

  lemma {:induction false} FirstOfReading(g: seq<Byte>, f: seq<Byte>, rest: seq<Byte>)
    requires NoMarker(g, SOI_BYTE, 0) && IsFrame(f)
    ensures First(g + (f + rest)) == Some(Span(|g|, |g| + |f|)) && (g + (f + rest))[|g| + |f|..] == rest
  {
    NoSoiBeforeFrame(g, f + rest);
    FirstAfterGarbage(g, f + rest);
    FindIs(f, EOI_BYTE, 2, |f| - 2);
    FindInPrefix(f, rest, EOI_BYTE, 2);
    FirstAtSoi(f + rest);
  }

  /** The places the splitter finds are those of any reading of the stream. */
  lemma {:induction false} PlacesOfReading(buf: seq<Byte>, garbage: seq<seq<Byte>>, frames: seq<seq<Byte>>,
                                           tail: seq<Byte>, at: nat, p: Span)
    requires Reads(buf, garbage, frames, tail)
    ensures IsPlace(buf, at, p) <==> Placed(garbage, frames, at, p)
    decreases |frames|
  {
    if frames == [] {
      assert buf == tail;
      TailHasNoFirst(tail);
    } else {
      var g, f, more := garbage[0], frames[0], Weave(garbage[1..], frames[1..]);
      var from, to := at + |g|, at + |g| + |f|;
      ConcatAssociates(g, f + more, tail);
      ConcatAssociates(f, more, tail);
      FirstOfReading(g, f, more + tail);
      PlacesFrom(buf, at, Span(|g|, |g| + |f|), from, to, p);
      PlacedStep(garbage, frames, at, from, to, p);
      PlacesOfReading(more + tail, garbage[1..], frames[1..], tail, to, p);
    }
  }

  /** How many bytes were read when chunk `j` ended. */
  function ChunkEnd(chunks: seq<seq<Byte>>, j: nat): nat
    requires j < |chunks|
  {
    |Concat(chunks[..j + 1])|
  }

  lemma {:induction false} CutsAreEnds(at: nat, chunks: seq<seq<Byte>>, j: nat)
    requires j < |chunks|
    ensures Cuts(at, chunks)[j] == at + ChunkEnd(chunks, j)
    decreases |chunks|
  {
    ConcatFirst(chunks, j);
    if j == 0 {
      assert Concat(chunks[1..][..j]) == [];
    } else {
      CutsAreEnds(at + |chunks[0]|, chunks[1..], j - 1);
    }
  }

  lemma {:induction false} ConcatFirst(chunks: seq<seq<Byte>>, j: nat)
    requires j < |chunks|
    ensures |Concat(chunks[..j + 1])| == |chunks[0]| + |Concat(chunks[1..][..j])|
  {
    assert chunks[..j + 1][1..] == chunks[1..][..j];
  }

  /**
    The frames are those of the whole stream if and only if every chunk that ends inside one of
    them ends at most `cap` bytes after the frame's start. Otherwise the frame is lost or
    comes out without its beginning.
   */
  lemma {:induction false} FramesUnaffectedIff(
      cap: nat, chunks: seq<seq<Byte>>, garbage: seq<seq<Byte>>, frames: seq<seq<Byte>>, tail: seq<Byte>)
    requires Reads(Concat(chunks), garbage, frames, tail)
    ensures FeedAll(cap, [], chunks) == frames
            <==> forall i, j | 0 <= i < |frames| && 0 <= j < |chunks| ::
                   Fits(cap, PlaceOf(garbage, frames, i, 0), ChunkEnd(chunks, j))
  {
    var s, cuts := Concat(chunks), Cuts(0, chunks);
    ReadingIsUnique(s, garbage, frames, tail);
    assert [] + s == s;
    FramesUnaffected(cap, 0, [], 0, chunks);
    forall j | 0 <= j < |chunks|
      ensures cuts[j] == ChunkEnd(chunks, j)
    {
      CutsAreEnds(0, chunks, j);
    }
    forall p: Span
      ensures IsPlace(s, 0, p) <==> Placed(garbage, frames, 0, p)
    {
      PlacesOfReading(s, garbage, frames, tail, 0, p);
    }
    PlacesQuantified(cap, s, garbage, frames, chunks);
  }

  lemma {:induction false} PlacesQuantified(cap: nat, s: seq<Byte>, garbage: seq<seq<Byte>>, frames: seq<seq<Byte>>,
                                            chunks: seq<seq<Byte>>)
    requires |garbage| == |frames| && forall p: Span :: IsPlace(s, 0, p) <==> Placed(garbage, frames, 0, p)
    requires forall j | 0 <= j < |chunks| :: Cuts(0, chunks)[j] == ChunkEnd(chunks, j)
    ensures AllFit(cap, s, 0, Cuts(0, chunks))
            <==> forall i, j | 0 <= i < |frames| && 0 <= j < |chunks| ::
                   Fits(cap, PlaceOf(garbage, frames, i, 0), ChunkEnd(chunks, j))
  {
    if AllFit(cap, s, 0, Cuts(0, chunks)) {
      forall i, j | 0 <= i < |frames| && 0 <= j < |chunks|
        ensures Fits(cap, PlaceOf(garbage, frames, i, 0), ChunkEnd(chunks, j))
      {
        var p := PlaceOf(garbage, frames, i, 0);
        assert IsPlace(s, 0, p);
        assert Fits(cap, p, Cuts(0, chunks)[j]);
      }
    } else {
      var p: Span, j :| IsPlace(s, 0, p) && 0 <= j < |chunks| && !Fits(cap, p, Cuts(0, chunks)[j]);
      var i :| 0 <= i < |frames| && p == PlaceOf(garbage, frames, i, 0);
      assert !Fits(cap, PlaceOf(garbage, frames, i, 0), ChunkEnd(chunks, j));
    }
  }

  // ----- A frame that depends on the reads -----

  /** SOI, zeros and EOI: four bytes more than `cap`. */
  function LongFrame(cap: nat): (f: seq<Byte>)
    ensures |f| == cap + 4
  {
    [0xFF, 0xD8] + seq<Byte>(cap, i => 0) + [0xFF, 0xD9]
  }

  /** `s` cut into pieces of `m` bytes, the last one shorter. */
  function Pieces(s: seq<Byte>, m: nat): seq<seq<Byte>>
    requires m > 0
    decreases |s|
  {
    if |s| <= m then [s] else [s[..m]] + Pieces(s[m..], m)
  }

  /** Chunks that one read can deliver. */
  predicate Readable(chunks: seq<seq<Byte>>, m: nat) {
    forall i | 0 <= i < |chunks| :: 1 <= |chunks[i]| <= m
  }

  lemma {:induction false} PiecesCover(s: seq<Byte>, m: nat)
    requires m > 0 && s != []
    ensures Concat(Pieces(s, m)) == s && Readable(Pieces(s, m), m)
    decreases |s|
  {
    if |s| <= m {
      assert [s][1..] == [] && Concat([]) == [];
      ConcatNil(s);
    } else {
      PiecesCover(s[m..], m);
      ConcatSplits([s[..m]], Pieces(s[m..], m));
    }
  }

  lemma {:induction false} FirstEnd(chunks: seq<seq<Byte>>)
    requires chunks != []
    ensures ChunkEnd(chunks, 0) == |chunks[0]|
  {
    ConcatFirst(chunks, 0);
    assert Concat(chunks[1..][..0]) == [];
  }

  lemma {:induction false} LaterEnd(first: seq<Byte>, more: seq<seq<Byte>>, j: nat)
    requires j < |more|
    ensures ChunkEnd([first] + more, j + 1) == |first| + ChunkEnd(more, j)
  {
    ConcatSplits([first], more);
    ConcatFirst([first] + more, j + 1);
  }

  /** Every piece but the last ends at a multiple of `m`. */
  lemma {:induction false} PieceEnds(s: seq<Byte>, m: nat, j: nat) returns (k: nat)
    requires m > 0 && j < |Pieces(s, m)|
    ensures ChunkEnd(Pieces(s, m), j) == |s| || ChunkEnd(Pieces(s, m), j) == k * m
    decreases |s|
  {
    k := 1;
    FirstEnd(Pieces(s, m));
    if j > 0 {
      k := PieceEnds(s[m..], m, j - 1);
      LaterEnd(s[..m], Pieces(s[m..], m), j - 1);
      assert m + k * m == (k + 1) * m;
      k := k + 1;
    }
  }

  /** And one ends at each multiple. */
  lemma {:induction false} EndsAtMultiple(s: seq<Byte>, m: nat, k: nat) returns (j: nat)
    requires m > 0 && k > 0 && k * m <= |s|
    ensures j < |Pieces(s, m)| && ChunkEnd(Pieces(s, m), j) == k * m
    decreases k
  {
    FirstEnd(Pieces(s, m));
    if k == 1 {
      j := 0;
    } else {
      assert (k - 1) * m == k * m - m && (k - 1) * m >= m;
      j := EndsAtMultiple(s[m..], m, k - 1);
      LaterEnd(s[..m], Pieces(s[m..], m), j);
      j := j + 1;
    }
  }

  lemma {:induction false} LongFrameReads(cap: nat)
    ensures Reads(LongFrame(cap), [[]], [LongFrame(cap)], [])
    ensures PlaceOf([[]], [LongFrame(cap)], 0, 0) == Span(0, cap + 4)
  {
    var f := LongFrame(cap);
    assert IsFrame(f);
    var none: seq<seq<Byte>> := [[]];
    var one := [f];
    assert one[1..] == [] && none[1..] == [];
    assert Weave(none[1..], one[1..]) == [];
    ConcatNil(f);
    assert Weave(none, one) == f;
  }

  lemma {:induction false} BelowMultiple(k: nat, n: nat, m: nat)
    requires m > 4 && k * m < n * m + 4
    ensures k * m <= n * m
  {
    if k <= n {
      MulMonotone(k, n, m);
    } else {
      MulMonotone(n + 1, k, m);
    }
  }

  /** Cut at multiples of the read size, of which the cap is one, the frame survives. */
  lemma {:induction false} EvenReadsKeepIt(cap: nat, n: nat, m: nat)
    requires m > 4 && cap == n * m
    ensures Concat(Pieces(LongFrame(cap), m)) == LongFrame(cap)
    ensures FeedAll(cap, [], Pieces(LongFrame(cap), m)) == [LongFrame(cap)]
  {
    var f := LongFrame(cap);
    var chunks := Pieces(f, m);
    PiecesCover(f, m);
    LongFrameReads(cap);
    FramesUnaffectedIff(cap, chunks, [[]], [f], []);
    forall i, j | 0 <= i < |[f]| && 0 <= j < |chunks|
      ensures Fits(cap, PlaceOf([[]], [f], i, 0), ChunkEnd(chunks, j))
    {
      var k := PieceEnds(f, m, j);
      if k * m < n * m + 4 {
        BelowMultiple(k, n, m);
      }
    }
  }

  /** With one byte read by itself first, a later read ends one byte past the cap, and the frame is lost. */
  lemma {:induction false} OddReadsLoseIt(cap: nat, n: nat, m: nat)
    requires m > 4 && n > 0 && cap == n * m
    ensures var chunks := [LongFrame(cap)[..1]] + Pieces(LongFrame(cap)[1..], m);
            Concat(chunks) == LongFrame(cap) && FeedAll(cap, [], chunks) != [LongFrame(cap)]
  {
    var f := LongFrame(cap);
    var first, more := f[..1], Pieces(f[1..], m);
    var chunks := [first] + more;
    PiecesCover(f[1..], m);
    ConcatSplits([first], more);
    assert first + f[1..] == f;
    LongFrameReads(cap);
    FramesUnaffectedIff(cap, chunks, [[]], [f], []);
    var j := EndsAtMultiple(f[1..], m, n);
    LaterEnd(first, more, j);
    assert !Fits(cap, PlaceOf([[]], [f], 0, 0), ChunkEnd(chunks, j + 1));
  }

  /**
    Past the cap the chunks do matter, with reads the source can make: a frame of 20 MiB and
    four bytes survives reads of 16384 bytes, and is lost if the first read delivers one byte.
   */
  lemma {:induction false} LongFramesDependOnReads()
    ensures var f := LongFrame(MAX_BUFFER);
            var even, odd := Pieces(f, READ_SIZE), [f[..1]] + Pieces(f[1..], READ_SIZE);
            && Concat(even) == f && Concat(odd) == f && Readable(even, READ_SIZE) && Readable(odd, READ_SIZE)
            && FeedAll(MAX_BUFFER, [], even) == [f] && FeedAll(MAX_BUFFER, [], odd) != [f]
  {
    var f := LongFrame(MAX_BUFFER);
    var even, odd := Pieces(f, READ_SIZE), [f[..1]] + Pieces(f[1..], READ_SIZE);
    EvenReadsKeepIt(MAX_BUFFER, 1280, READ_SIZE);
    OddReadsLoseIt(MAX_BUFFER, 1280, READ_SIZE);
    PiecesCover(f, READ_SIZE);
    PiecesCover(f[1..], READ_SIZE);
  }
}
