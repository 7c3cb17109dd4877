/** Reassembly of Chainway frames from arbitrary TCP chunks, and the pure parse it refines. */
module ChainwayStream {
  import opened Bytes
  import opened ChainwayFrame

  const DEFAULT_MAX_BUFFER := 64 * 1024

  datatype Parsed = Parsed(frames: seq<seq<byte>>, tail: seq<byte>)

  predicate HeaderAt(b: seq<byte>, i: nat) {
    i + 1 < |b| && b[i] == HEADER1 && b[i + 1] == HEADER2
  }

  function DeclaredSize(b: seq<byte>): nat
    requires |b| >= 4
  {
    U16(b[2], b[3])
  }

  predicate SizeInRange(b: seq<byte>)
    requires |b| >= 4
  {
    MIN_FRAME_LEN <= DeclaredSize(b) <= MAX_FRAME_LEN
  }

  /** More octets are needed before anything can be said about the frame that may start at the first octet. */
  predicate Waiting(b: seq<byte>) {
    || b == [HEADER1]
    || (HeaderAt(b, 0) && (|b| < 4 || (SizeInRange(b) && |b| < DeclaredSize(b))))
  }

  predicate FrameFirst(b: seq<byte>) {
    |b| >= 4 && DeclaredSize(b) <= |b| && Accepted(b[..DeclaredSize(b)])
  }

  function Before(frames: seq<seq<byte>>, p: Parsed): Parsed {
    Parsed(frames + p.frames, p.tail)
  }

  /** The whole-stream parse, one octet at a time: wait, take the frame that starts here, or skip one octet. */
  function Parse(b: seq<byte>): Parsed
    decreases |b|
  {
    if b == [] || Waiting(b) then Parsed([], b)
    else if FrameFirst(b) then
      var size := DeclaredSize(b);
      FrameSize(b);
      Before([b[..size]], Parse(b[size..]))
    else Parse(b[1..])
  }

  lemma FrameSize(b: seq<byte>)
    requires FrameFirst(b)
    ensures MIN_FRAME_LEN <= DeclaredSize(b) <= MAX_FRAME_LEN
  {
  }

  // ---- The parse is the leftmost one -------------------------------------------------------

  /** Some accepted frame is a prefix of `b`. */
  ghost predicate StartsFrame(b: seq<byte>) {
    exists k | 0 <= k <= |b| :: Accepted(b[..k])
  }

  lemma StartsFrameIsFrameFirst(b: seq<byte>)
    ensures StartsFrame(b) <==> FrameFirst(b)
    ensures forall k | 0 <= k <= |b| && Accepted(b[..k]) :: FrameFirst(b) && k == DeclaredSize(b)
  {
    forall k | 0 <= k <= |b| && Accepted(b[..k])
      ensures FrameFirst(b) && k == DeclaredSize(b)
    {
      assert b[..k][2] == b[2] && b[..k][3] == b[3];
    }
  }

  /** None of the first `g` positions starts a frame or could still be waiting for one. */
  ghost predicate Garbage(s: seq<byte>, g: nat)
    requires g <= |s|
  {
    forall i | 0 <= i < g :: !Waiting(s[i..]) && !StartsFrame(s[i..])
  }

  /** `frames` cut `s` into garbage, frame, garbage, ..., and `tail` is empty or still waiting. */
  ghost predicate IsLeftmostParse(s: seq<byte>, frames: seq<seq<byte>>, tail: seq<byte>)
    decreases |frames|
  {
    exists g | 0 <= g <= |s| :: Garbage(s, g) && Continues(s[g..], frames, tail)
  }

  ghost predicate Continues(s: seq<byte>, frames: seq<seq<byte>>, tail: seq<byte>)
    decreases |frames|, 0
  {
    if frames == [] then s == tail && (tail == [] || Waiting(tail))
    else
      && frames[0] <= s
      && Accepted(frames[0])
      && IsLeftmostParse(s[|frames[0]|..], frames[1..], tail)
  }

  lemma {:induction false} GarbageSkipped(s: seq<byte>, g: nat)
    requires g <= |s| && Garbage(s, g)
    ensures Parse(s) == Parse(s[g..])
  {
    if g > 0 {
      assert s[0..] == s;
      StartsFrameIsFrameFirst(s);
      forall i | 0 <= i < g - 1
        ensures !Waiting(s[1..][i..]) && !StartsFrame(s[1..][i..])
      {
        assert s[1..][i..] == s[i + 1..];
      }
      GarbageSkipped(s[1..], g - 1);
      assert s[1..][g - 1..] == s[g..];
    } else {
      assert s[0..] == s;
    }
  }

  /** There is only one way to cut a stream, and Parse finds it. */
  lemma {:induction false} LeftmostParseUnique(s: seq<byte>, frames: seq<seq<byte>>, tail: seq<byte>)
    requires IsLeftmostParse(s, frames, tail)
    ensures Parse(s) == Parsed(frames, tail)
    decreases |frames|, 1
  {
    var g :| 0 <= g <= |s| && Garbage(s, g) && Continues(s[g..], frames, tail);
    GarbageSkipped(s, g);
    ContinuationUnique(s[g..], frames, tail);
  }

  lemma {:induction false} ContinuationUnique(u: seq<byte>, frames: seq<seq<byte>>, tail: seq<byte>)
    requires Continues(u, frames, tail)
    ensures Parse(u) == Parsed(frames, tail)
    decreases |frames|, 0
  {
    if frames != [] {
      FrameTaken(u, frames[0]);
      LeftmostParseUnique(u[|frames[0]|..], frames[1..], tail);
      assert [frames[0]] + frames[1..] == frames;
    }
  }

  lemma FrameTaken(u: seq<byte>, f: seq<byte>)
    requires f <= u && Accepted(f)
    ensures Parse(u) == Before([f], Parse(u[|f|..]))
  {
    assert u[..|f|] == f;
    StartsFrameIsFrameFirst(u);
  }

  lemma {:induction false} ParseIsLeftmost(s: seq<byte>)
    ensures IsLeftmostParse(s, Parse(s).frames, Parse(s).tail)
    decreases |s|
  {
    var p := Parse(s);
    assert s[0..] == s;
    if s == [] || Waiting(s) {
      assert Garbage(s, 0) && Continues(s[0..], [], s);
    } else if FrameFirst(s) {
      FrameSize(s);
      ParseIsLeftmost(s[DeclaredSize(s)..]);
      assert p.frames[1..] == Parse(s[DeclaredSize(s)..]).frames;
      assert Garbage(s, 0) && Continues(s[0..], p.frames, p.tail);
    } else {
      ParseIsLeftmost(s[1..]);
      var g :| 0 <= g <= |s[1..]| && Garbage(s[1..], g) && Continues(s[1..][g..], p.frames, p.tail);
      StartsFrameIsFrameFirst(s);
      forall i | 0 <= i < g + 1
        ensures !Waiting(s[i..]) && !StartsFrame(s[i..])
      {
        if i > 0 {
          assert s[i..] == s[1..][i - 1..];
        }
      }
      assert s[1..][g..] == s[g + 1..];
      assert Garbage(s, g + 1) && Continues(s[g + 1..], p.frames, p.tail);
    }
  }

  /** The frames and tail of Parse are exactly the leftmost cut of the stream. */
  lemma ParseIsTheLeftmostParse(s: seq<byte>, frames: seq<seq<byte>>, tail: seq<byte>)
    ensures IsLeftmostParse(s, frames, tail) <==> Parse(s) == Parsed(frames, tail)
  {
    ParseIsLeftmost(s);
    if IsLeftmostParse(s, frames, tail) {
      LeftmostParseUnique(s, frames, tail);
    }
  }

  /** A skipped position stays dead: no continuation of the stream makes a frame start there. */
  lemma SkippedNeverStartsFrame(b: seq<byte>, more: seq<byte>)
    requires b != [] && !Waiting(b) && !FrameFirst(b)
    ensures !Waiting(b + more) && !StartsFrame(b + more)
  {
    var c := b + more;
    StartsFrameIsFrameFirst(c);
    if |b| >= 4 && DeclaredSize(b) <= |b| {
      assert c[..DeclaredSize(c)] == b[..DeclaredSize(b)];
    }
  }

  /** Frames written by Encode come out exactly, whatever 0xA5-free octets surround them. */
  function Interleave(garbage: seq<seq<byte>>, messages: seq<Frame>): seq<byte>
    requires |garbage| == |messages| + 1
    requires forall m <- messages :: FRAME_OVERHEAD + |m.data| <= MAX_FRAME_LEN
    decreases |messages|
  {
    if messages == [] then garbage[0]
    else garbage[0] + (FrameBytes(messages[0].cmd, messages[0].data) + Interleave(garbage[1..], messages[1..]))
  }

  function EncodeAll(messages: seq<Frame>): seq<seq<byte>>
    requires forall m <- messages :: FRAME_OVERHEAD + |m.data| <= MAX_FRAME_LEN
  {
    if messages == [] then []
    else [FrameBytes(messages[0].cmd, messages[0].data)] + EncodeAll(messages[1..])
  }

  lemma {:induction false} EncodedFramesRecovered(garbage: seq<seq<byte>>, messages: seq<Frame>)
    requires |garbage| == |messages| + 1
    requires forall m <- messages :: FRAME_OVERHEAD + |m.data| <= MAX_FRAME_LEN
    requires forall g <- garbage :: HEADER1 !in g
    ensures Parse(Interleave(garbage, messages)) == Parsed(EncodeAll(messages), [])
    decreases |messages|
  {
    if messages == [] {
      HeaderFreeSkipped(garbage[0], []);
      assert garbage[0] + [] == garbage[0];
    } else {
      var f := FrameBytes(messages[0].cmd, messages[0].data);
      var rest := Interleave(garbage[1..], messages[1..]);
      var u := f + rest;
      HeaderFreeSkipped(garbage[0], u);
      DecodeEncode(messages[0].cmd, messages[0].data);
      assert u[..|f|] == f && u[|f|..] == rest;
      FrameTaken(u, f);
      EncodedFramesRecovered(garbage[1..], messages[1..]);
    }
  }

  lemma {:induction false} HeaderFreeSkipped(g: seq<byte>, rest: seq<byte>)
    requires HEADER1 !in g
    ensures Parse(g + rest) == Parse(rest)
  {
    if g == [] {
      assert g + rest == rest;
    } else {
      var s := g + rest;
      assert s[0] != HEADER1 && s[1..] == g[1..] + rest;
      HeaderFreeSkipped(g[1..], rest);
    }
  }

  // ---- Cutting the stream into chunks ------------------------------------------------------

  /** Parsing may stop and resume anywhere: only the tail has to be kept. */
  lemma {:induction false} ParseResumes(b: seq<byte>, c: seq<byte>)
    ensures Parse(b + c) == Before(Parse(b).frames, Parse(Parse(b).tail + c))
    decreases |b|
  {
    hide Accepted;
    var s := b + c;
    if b == [] || Waiting(b) {
    } else if FrameFirst(b) {
      var size := DeclaredSize(b);
      FrameSize(b);
      assert s[..size] == b[..size] && s[size..] == b[size..] + c;
      ParseResumes(b[size..], c);
      var p, q := Parse(b[size..]), Parse(Parse(b[size..]).tail + c);
      assert [b[..size]] + (p.frames + q.frames) == ([b[..size]] + p.frames) + q.frames;
    } else {
      SkippedNeverStartsFrame(b, c);
      StartsFrameIsFrameFirst(s);
      assert s[1..] == b[1..] + c;
      ParseResumes(b[1..], c);
    }
  }

  /** A tail never reaches the largest frame, so the default cap of 64 KiB cannot fire. */
  lemma {:induction false} TailBelowMaxFrame(b: seq<byte>)
    ensures |Parse(b).tail| < MAX_FRAME_LEN
    ensures Parse(b).tail == [] || Waiting(Parse(b).tail)
    decreases |b|
  {
    if b == [] || Waiting(b) {
    } else if FrameFirst(b) {
      FrameSize(b);
      TailBelowMaxFrame(b[DeclaredSize(b)..]);
    } else {
      TailBelowMaxFrame(b[1..]);
    }
  }

  /** The first header at or after `from`, or -1. */
  function FirstHeader(b: seq<byte>, from: nat): (r: int)
    ensures r == -1 ==> forall i | from <= i :: !HeaderAt(b, i)
    ensures r != -1 ==> from <= r && HeaderAt(b, r) && forall i | from <= i < r :: !HeaderAt(b, i)
    decreases |b| - from
  {
    if from + 1 >= |b| then -1 else if HeaderAt(b, from) then from else FirstHeader(b, from + 1)
  }

  function PossibleHeaderStart(b: seq<byte>): seq<byte> {
    if b != [] && b[|b| - 1] == HEADER1 then [HEADER1] else []
  }

  /** What a cap keeps of a retained tail. */
  function Capped(b: seq<byte>, max: nat): (r: seq<byte>)
    requires max > 0
    ensures |r| <= max
    ensures |b| <= max ==> r == b
    ensures |r| <= |b| && r == b[|b| - |r|..]
  {
    if |b| <= max then b
    else
      var j := FirstHeader(b, |b| - max);
      if j >= 0 then b[j..] else PossibleHeaderStart(b)
  }

  /** One Append: the frames of retained + new octets, and the capped tail. */
  function AppendResult(buffer: seq<byte>, chunk: seq<byte>, max: nat): Parsed
    requires max > 0
  {
    var p := Parse(buffer + chunk);
    p.(tail := Capped(p.tail, max))
  }

  /** Everything a sequence of Append calls returns, and what it leaves behind. */
  function Feed(buffer: seq<byte>, chunks: seq<seq<byte>>, max: nat): Parsed
    requires max > 0
    decreases |chunks|
  {
    if chunks == [] then Parsed([], buffer)
    else
      var first := AppendResult(buffer, chunks[0], max);
      var rest := Feed(first.tail, chunks[1..], max);
      Before(first.frames, rest)
  }

  lemma AppendUncapped(buffer: seq<byte>, chunk: seq<byte>, max: nat)
    requires max >= MAX_FRAME_LEN - 1
    ensures AppendResult(buffer, chunk, max) == Parse(buffer + chunk)
    ensures var t := Parse(buffer + chunk).tail; t == [] || Waiting(t)
  {
    TailBelowMaxFrame(buffer + chunk);
  }

  /** With a cap of at least 2047 octets, feeding chunks is parsing their concatenation. */
  lemma {:induction false} FeedIsParse(buffer: seq<byte>, chunks: seq<seq<byte>>, max: nat)
    requires max >= MAX_FRAME_LEN - 1
    requires buffer == [] || Waiting(buffer)
    ensures Feed(buffer, chunks, max) == Parse(buffer + Concat(chunks))
    decreases |chunks|
  {
    if chunks == [] {
      assert buffer + Concat(chunks) == buffer;
    } else {
      var b, more := buffer + chunks[0], Concat(chunks[1..]);
      AppendUncapped(buffer, chunks[0], max);
      FeedIsParse(Parse(b).tail, chunks[1..], max);
      ParseResumes(b, more);
      ConcatFirst(buffer, chunks);
    }
  }

  /** Two ways of cutting the same octets give the same frames and the same retained tail; no bound on chunk sizes. */
  lemma ChunkInvariance(xs: seq<seq<byte>>, ys: seq<seq<byte>>)
    requires Concat(xs) == Concat(ys)
    ensures Feed([], xs, DEFAULT_MAX_BUFFER) == Feed([], ys, DEFAULT_MAX_BUFFER)
  {
    FeedIsParse([], xs, DEFAULT_MAX_BUFFER);
    FeedIsParse([], ys, DEFAULT_MAX_BUFFER);
  }

  // ---- The extractor -----------------------------------------------------------------------

  lemma {:induction false} SkipToHeader(b: seq<byte>, start: nat)
    requires start <= |b|
    requires start < |b| || PossibleHeaderStart(b) == []
    requires start < |b| ==> (HeaderAt(b, start) || b[start..] == [HEADER1])
    requires forall i | 0 <= i < start :: !HeaderAt(b, i)
    ensures Parse(b) == Parse(b[start..])
  {
    hide Parse, Waiting, FrameFirst;
    if start == 0 {
      assert b[0..] == b;
    } else {
      assert !HeaderAt(b, 0);
      OctetSkipped(b);
      forall i | 0 <= i < start - 1
        ensures !HeaderAt(b[1..], i)
      {
        assert !HeaderAt(b, i + 1);
      }
      assert b[1..][start - 1..] == b[start..];
      SkipToHeader(b[1..], start - 1);
    }
  }

  lemma OctetSkipped(b: seq<byte>)
    requires b != [] && b != [HEADER1] && !HeaderAt(b, 0)
    ensures Parse(b) == Parse(b[1..])
  {
    assert !FrameFirst(b) by {
      if FrameFirst(b) {
        var f := b[..DeclaredSize(b)];
        assert f[0] == HEADER1 && f[1] == HEADER2;
        assert HeaderAt(b, 0);
      }
    }
  }

  lemma NoHeaderLeft(b: seq<byte>)
    requires FirstHeader(b, 0) == -1
    ensures Parse(b) == Parsed([], PossibleHeaderStart(b))
  {
    var keep := PossibleHeaderStart(b);
    SkipToHeader(b, |b| - |keep|);
    assert b[|b| - |keep|..] == keep;
  }

  lemma BeforeAssociates(frames: seq<seq<byte>>, f: seq<byte>, p: Parsed)
    ensures Before(frames, Before([f], p)) == Before(frames + [f], p)
  {
    assert frames + ([f] + p.frames) == (frames + [f]) + p.frames;
  }

  method HeaderIndex(b: seq<byte>, from: nat) returns (r: int)
    ensures r == FirstHeader(b, from)
  {
    var i := from;
    while i + 1 < |b|
      invariant FirstHeader(b, i) == FirstHeader(b, from)
      decreases |b| - i
    {
      if b[i] == HEADER1 && b[i + 1] == HEADER2 {
        return i;
      }
      i := i + 1;
    }
    return -1;
  }

  class StreamExtractor {
    var buffer: seq<byte>
    const maxBuffer: nat

    ghost predicate Valid()
      reads this
    {
      0 < maxBuffer && |buffer| <= maxBuffer
    }

    /** NewStreamExtractorWithMaxBuffer: a cap that is not positive means the default. */
    constructor WithMaxBuffer(max: int)
      ensures Valid() && buffer == []
      ensures maxBuffer == if max <= 0 then 65536 else max
    {
      buffer := [];
      maxBuffer := if max <= 0 then DEFAULT_MAX_BUFFER else max;
    }

    method Append(chunk: seq<byte>) returns (frames: seq<seq<byte>>)
      requires Valid()
      modifies this
      ensures Valid()
      ensures Parsed(frames, buffer) == AppendResult(old(buffer), chunk, maxBuffer)
    {
      if |chunk| > 0 {
        buffer := buffer + chunk;
      }
      ghost var whole := old(buffer) + chunk;
      assert buffer == whole;
      frames := [];
      while true
        invariant Parse(whole) == Before(frames, Parse(buffer))
        decreases |buffer|
      {
        ghost var before := buffer;
        var start := HeaderIndex(buffer, 0);
        if start < 0 {
          KeepPossibleHeaderStart();
          NoHeaderLeft(before);
          break;
        }
        buffer := buffer[start..];
        SkipToHeader(before, start);
        if |buffer| < 4 {
          break;
        }
        var size := U16(buffer[2], buffer[3]);
        if size < MIN_FRAME_LEN || size > MAX_FRAME_LEN {
          buffer := buffer[1..];
          continue;
        }
        if |buffer| < size {
          break;
        }
        if Decode(buffer[..size]).Err? {
          buffer := buffer[1..];
          continue;
        }
        BeforeAssociates(frames, buffer[..size], Parse(buffer[size..]));
        frames := frames + [buffer[..size]];
        buffer := buffer[size..];
      }
      assert Parse(whole) == Parsed(frames, buffer);
      EnforceMaxBuffer();
    }

    method KeepPossibleHeaderStart()
      modifies this
      ensures buffer == PossibleHeaderStart(old(buffer))
    {
      var n := |buffer|;
      if n > 0 && buffer[n - 1] == HEADER1 {
        buffer := buffer[n - 1..];
        return;
      }
      buffer := [];
    }

    method EnforceMaxBuffer()
      requires 0 < maxBuffer
      modifies this
      ensures buffer == Capped(old(buffer), maxBuffer)
    {
      if |buffer| <= maxBuffer {
        return;
      }
      var j := HeaderIndex(buffer, |buffer| - maxBuffer);
      if j >= 0 {
        buffer := buffer[j..];
        return;
      }
      KeepPossibleHeaderStart();
    }

    method Reset()
      requires Valid()
      modifies this
      ensures Valid() && buffer == []
    {
      buffer := [];
    }
  }
}
