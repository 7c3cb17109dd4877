/** Reassembly of generic RFID frames: SOI-led, length taken from octet 5, cap applied before extraction. */
module GenericStream {
  import opened Bytes

  const PACKET_START_COMMAND: byte := 0x7C
  const PACKET_START_RESPONSE: byte := 0xCC
  const MIN_PACKET_SIZE := 7
  const DEFAULT_MAX_BUFFER := 64 * 1024
  // The longest incomplete packet: one octet short of 6 + 255 + 1.
  const MAX_TAIL := 261

  datatype Parsed = Parsed(frames: seq<seq<byte>>, tail: seq<byte>)

  predicate IsPacketStart(b: byte) {
    b == PACKET_START_COMMAND || b == PACKET_START_RESPONSE
  }

  predicate StartFree(b: seq<byte>) {
    forall x <- b :: !IsPacketStart(x)
  }

  /** The length announced by octet 5: six header octets, the data, one checksum. */
  function ExpectedSize(b: seq<byte>): (n: nat)
    requires |b| >= MIN_PACKET_SIZE
    ensures MIN_PACKET_SIZE <= n <= MAX_TAIL + 1
  {
    var dataLen: nat := b[5];
    6 + dataLen + 1
  }

  /** A frame starts with a start octet and is as long as it says. */
  predicate IsFrame(f: seq<byte>) {
    |f| >= MIN_PACKET_SIZE && IsPacketStart(f[0]) && |f| == ExpectedSize(f)
  }

  predicate Waiting(b: seq<byte>) {
    b != [] && IsPacketStart(b[0]) && (|b| < MIN_PACKET_SIZE || |b| < ExpectedSize(b))
  }

  function Before(frames: seq<seq<byte>>, p: Parsed): Parsed {
    Parsed(frames + p.frames, p.tail)
  }

  /** The whole-stream parse, one octet or one frame at a time. */
  function Parse(b: seq<byte>): Parsed
    decreases |b|
  {
    if b == [] || Waiting(b) then Parsed([], b)
    else if !IsPacketStart(b[0]) then Parse(b[1..])
    else Before([b[..ExpectedSize(b)]], Parse(b[ExpectedSize(b)..]))
  }

  // ---- The parse is the unique split -------------------------------------------------------

  /** s = garbage frame garbage frame ... garbage tail, with garbage free of start octets. */
  ghost predicate IsSplit(s: seq<byte>, frames: seq<seq<byte>>, tail: seq<byte>)
    decreases |frames|
  {
    exists g | 0 <= g <= |s| :: StartFree(s[..g]) && Continues(s[g..], frames, tail)
  }

  ghost predicate Continues(s: seq<byte>, frames: seq<seq<byte>>, tail: seq<byte>)
    decreases |frames|, 0
  {
    if frames == [] then s == tail && (tail == [] || Waiting(tail))
    else frames[0] <= s && IsFrame(frames[0]) && IsSplit(s[|frames[0]|..], frames[1..], tail)
  }

  lemma {:induction false} StartFreeSkipped(g: seq<byte>, rest: seq<byte>)
    requires StartFree(g)
    ensures Parse(g + rest) == Parse(rest)
  {
    if g == [] {
      assert g + rest == rest;
    } else {
      assert (g + rest)[1..] == g[1..] + rest;
      StartFreeSkipped(g[1..], rest);
    }
  }

  lemma FrameTaken(u: seq<byte>, f: seq<byte>)
    requires f <= u && IsFrame(f)
    ensures Parse(u) == Before([f], Parse(u[|f|..]))
  {
    assert u[..|f|] == f;
    assert u[5] == f[5];
    assert ExpectedSize(u) == |f|;
  }

  lemma PrefixSkipped(s: seq<byte>, g: nat)
    requires g <= |s| && StartFree(s[..g])
    ensures Parse(s) == Parse(s[g..])
  {
    StartFreeSkipped(s[..g], s[g..]);
    assert s == s[..g] + s[g..];
  }

  lemma {:induction false} SplitUnique(s: seq<byte>, frames: seq<seq<byte>>, tail: seq<byte>)
    requires IsSplit(s, frames, tail)
    ensures Parse(s) == Parsed(frames, tail)
    decreases |frames|, 1
  {
    var g :| 0 <= g <= |s| && StartFree(s[..g]) && Continues(s[g..], frames, tail);
    PrefixSkipped(s, g);
    ContinuationUnique(s[g..], frames, tail);
  }

  lemma {:induction false} ContinuationUnique(u: seq<byte>, frames: seq<seq<byte>>, tail: seq<byte>)
    requires Continues(u, frames, tail)
    ensures Parse(u) == Parsed(frames, tail)
    decreases |frames|, 0
  {
    if frames != [] {
      FrameTaken(u, frames[0]);
      SplitUnique(u[|frames[0]|..], frames[1..], tail);
      assert [frames[0]] + frames[1..] == frames;
    }
  }

  lemma SplitHere(s: seq<byte>, g: nat, frames: seq<seq<byte>>, tail: seq<byte>)
    requires g <= |s| && StartFree(s[..g]) && Continues(s[g..], frames, tail)
    ensures IsSplit(s, frames, tail)
  {
  }

  lemma SplitAfterGarbage(s: seq<byte>, frames: seq<seq<byte>>, tail: seq<byte>)
    requires s != [] && !IsPacketStart(s[0]) && IsSplit(s[1..], frames, tail)
    ensures IsSplit(s, frames, tail)
  {
    hide Continues;
    var u := s[1..];
    var g :| 0 <= g <= |u| && StartFree(u[..g]) && Continues(u[g..], frames, tail);
    assert s[..g + 1] == [s[0]] + u[..g] && s[g + 1..] == u[g..];
    SplitHere(s, g + 1, frames, tail);
  }

  lemma {:induction false} ParseIsSplit(s: seq<byte>)
    ensures IsSplit(s, Parse(s).frames, Parse(s).tail)
    decreases |s|
  {
    var p := Parse(s);
    assert s[0..] == s;
    if s == [] || Waiting(s) {
      SplitHere(s, 0, [], s);
    } else if !IsPacketStart(s[0]) {
      ParseIsSplit(s[1..]);
      SplitAfterGarbage(s, p.frames, p.tail);
    } else {
      var f := s[..ExpectedSize(s)];
      FrameTaken(s, f);
      ParseIsSplit(s[|f|..]);
      assert p.frames[0] == f && p.frames[1..] == Parse(s[|f|..]).frames;
      SplitHere(s, 0, p.frames, p.tail);
    }
  }

  /** The extractor's parse is the one and only split of the stream. */
  lemma ParseIsTheSplit(s: seq<byte>, frames: seq<seq<byte>>, tail: seq<byte>)
    ensures IsSplit(s, frames, tail) <==> Parse(s) == Parsed(frames, tail)
  {
    ParseIsSplit(s);
    if IsSplit(s, frames, tail) {
      SplitUnique(s, frames, tail);
    }
  }

  lemma {:induction false} ParseShape(b: seq<byte>)
    ensures forall f <- Parse(b).frames :: IsFrame(f)
    ensures forall f <- Parse(b).frames :: |f| >= 7 && |f| == 7 + f[5] && f[0] in {0x7C, 0xCC}
    ensures |Parse(b).tail| <= MAX_TAIL == 261 && |Parse(b).tail| <= |b|
    ensures Parse(b).tail == [] || Waiting(Parse(b).tail)
    decreases |b|
  {
    if b == [] || Waiting(b) {
    } else if !IsPacketStart(b[0]) {
      ParseShape(b[1..]);
    } else {
      ParseShape(b[ExpectedSize(b)..]);
    }
  }

  /** Garbage, an acknowledgement, garbage, and the beginning of another frame. */
  lemma KnownSplit()
    ensures Parse([0x00, 0x7C, 0xFF, 0xFF, 0x20, 0x00, 0x00, 0x66, 0x55, 0xCC, 0xFF]) ==
            Parsed([[0x7C, 0xFF, 0xFF, 0x20, 0x00, 0x00, 0x66]], [0xCC, 0xFF])
  {
    var frame: seq<byte> := [0x7C, 0xFF, 0xFF, 0x20, 0x00, 0x00, 0x66];
    var rest: seq<byte> := [0x55, 0xCC, 0xFF];
    var s: seq<byte> := [0x00, 0x7C, 0xFF, 0xFF, 0x20, 0x00, 0x00, 0x66, 0x55, 0xCC, 0xFF];
    assert s[..1] == [0x00] && s[1..] == frame + rest && rest[..1] == [0x55] && rest[1..] == [0xCC, 0xFF];
    PrefixSkipped(s, 1);
    FrameTaken(s[1..], frame);
    assert s[1..][|frame|..] == rest;
    PrefixSkipped(rest, 1);
  }

  // ---- Cutting the stream into chunks ------------------------------------------------------

  lemma {:induction false} ParseResumes(b: seq<byte>, c: seq<byte>)
    ensures Parse(b + c) == Before(Parse(b).frames, Parse(Parse(b).tail + c))
    decreases |b|
  {
    var s := b + c;
    if b == [] || Waiting(b) {
    } else if !IsPacketStart(b[0]) {
      assert s[1..] == b[1..] + c;
      ParseResumes(b[1..], c);
    } else {
      var size := ExpectedSize(b);
      assert s[..size] == b[..size] && s[size..] == b[size..] + c;
      ParseResumes(b[size..], c);
      BeforeAssociates([b[..size]], Parse(b[size..]).frames, Parse(Parse(b[size..]).tail + c));
    }
  }

  lemma BeforeAssociates(xs: seq<seq<byte>>, ys: seq<seq<byte>>, p: Parsed)
    ensures Before(xs, Before(ys, p)) == Before(xs + ys, p)
  {
    assert xs + (ys + p.frames) == (xs + ys) + p.frames;
  }

  /** The last start octet, or -1. */
  function LastStart(b: seq<byte>): (r: int)
    ensures -1 <= r < |b|
    ensures r >= 0 ==> IsPacketStart(b[r])
    ensures forall i | r < i < |b| :: !IsPacketStart(b[i])
  {
    if b == [] then -1 else if IsPacketStart(b[|b| - 1]) then |b| - 1 else LastStart(b[..|b| - 1])
  }

  /** What the cap keeps: everything, or the octets from the last start octet, or nothing. */
  function Capped(b: seq<byte>, max: nat): (r: seq<byte>)
    ensures |r| <= max
  {
    if |b| <= max then b
    else
      var start := LastStart(b);
      if start >= 0 && |b| - start <= max then b[start..] else []
  }

  /** One Append. */
  function AppendResult(buffer: seq<byte>, chunk: seq<byte>, max: nat): Parsed {
    Parse(Capped(buffer + chunk, max))
  }

  function Feed(buffer: seq<byte>, chunks: seq<seq<byte>>, max: nat): Parsed
    decreases |chunks|
  {
    if chunks == [] then Parsed([], buffer)
    else
      var first := AppendResult(buffer, chunks[0], max);
      Before(first.frames, Feed(first.tail, chunks[1..], max))
  }

  /** While no chunk exceeds the cap less one incomplete packet, feeding chunks is parsing their concatenation. */
  lemma {:induction false} FeedIsParse(buffer: seq<byte>, chunks: seq<seq<byte>>, max: nat)
    requires buffer == [] || Waiting(buffer)
    requires |buffer| <= MAX_TAIL
    requires forall c <- chunks :: |c| <= max - MAX_TAIL
    ensures Feed(buffer, chunks, max) == Parse(buffer + Concat(chunks))
    decreases |chunks|
  {
    if chunks == [] {
      assert buffer + Concat(chunks) == buffer;
    } else {
      var b := buffer + chunks[0];
      ParseShape(b);
      FeedIsParse(Parse(b).tail, chunks[1..], max);
      ParseResumes(b, Concat(chunks[1..]));
      ConcatFirst(buffer, chunks);
    }
  }

  lemma ChunkInvariance(xs: seq<seq<byte>>, ys: seq<seq<byte>>)
    requires Concat(xs) == Concat(ys)
    requires forall c <- xs + ys :: |c| <= DEFAULT_MAX_BUFFER - MAX_TAIL
    ensures Feed([], xs, DEFAULT_MAX_BUFFER) == Feed([], ys, DEFAULT_MAX_BUFFER)
  {
    forall c | c in xs || c in ys ensures |c| <= DEFAULT_MAX_BUFFER - MAX_TAIL {
      assert c in xs + ys;
    }
    FeedIsParse([], xs, DEFAULT_MAX_BUFFER);
    FeedIsParse([], ys, DEFAULT_MAX_BUFFER);
  }

  lemma {:induction false} OnlyStart(b: seq<byte>)
    requires b != [] && IsPacketStart(b[0])
    requires StartFree(b[1..])
    ensures LastStart(b) == 0
  {
    if |b| > 1 {
      assert b[|b| - 1] == b[1..][|b| - 2];
      assert b[..|b| - 1][1..] == b[1..][..|b| - 2];
      OnlyStart(b[..|b| - 1]);
    }
  }

  lemma LoneStartDropped(b: seq<byte>, max: nat)
    requires |b| > max && IsPacketStart(b[0]) && StartFree(b[1..])
    ensures Capped(b, max) == []
  {
    OnlyStart(b);
  }

  /** The bound is tight: one octet more and a retained packet that the chunk completes is lost. */
  lemma OversizedChunkLosesFrame(max: nat)
    requires max >= MAX_TAIL
    ensures exists tail: seq<byte>, chunk: seq<byte> ::
      && Parse(tail) == Parsed([], tail) && |tail| == MAX_TAIL && |chunk| == max - MAX_TAIL + 1
      && Parse(tail + chunk).frames != [] && AppendResult(tail, chunk, max) == Parsed([], [])
  {
    var tail, chunk := LongestWait(), Zeros(max - MAX_TAIL + 1);
    hide LongestWait, Zeros, StartFree;
    WaitsAlone(tail);
    CompletesLongest(tail, chunk);
    LoneStartDropped(tail + chunk, max);
  }

  function Zeros(n: nat): (z: seq<byte>)
    ensures |z| == n && StartFree(z)
  {
    seq(n, _ => 0)
  }

  /** A packet of 255 data octets with its checksum still to come. */
  function LongestWait(): (tail: seq<byte>)
    ensures |tail| == MAX_TAIL && Waiting(tail) && tail[5] == 255 && StartFree(tail[1..])
  {
    var tail := [PACKET_START_RESPONSE, 0, 0, 0, 0, 255] + Zeros(MAX_TAIL - 6);
    assert tail[1..] == [0, 0, 0, 0, 255] + Zeros(MAX_TAIL - 6);
    tail
  }

  lemma WaitsAlone(tail: seq<byte>)
    requires Waiting(tail)
    ensures Parse(tail) == Parsed([], tail)
  {
  }

  lemma CompletesLongest(tail: seq<byte>, chunk: seq<byte>)
    requires |tail| == MAX_TAIL && Waiting(tail) && tail[5] == 255 && StartFree(tail[1..])
    requires chunk != [] && StartFree(chunk)
    ensures Parse(tail + chunk).frames != [] && IsPacketStart((tail + chunk)[0]) && StartFree((tail + chunk)[1..])
  {
    var b := tail + chunk;
    assert b[1..] == tail[1..] + chunk;
    FrameTaken(b, b[..MAX_TAIL + 1]);
  }

  // ---- The extractor -----------------------------------------------------------------------

  method FirstSOIIndex(data: seq<byte>) returns (r: int)
    ensures -1 <= r < |data|
    ensures r == -1 ==> StartFree(data)
    ensures r >= 0 ==> IsPacketStart(data[r]) && StartFree(data[..r])
  {
    for i := 0 to |data|
      invariant StartFree(data[..i])
    {
      if IsPacketStart(data[i]) {
        return i;
      }
      assert data[..i + 1] == data[..i] + [data[i]];
    }
    assert data[..|data|] == data;
    return -1;
  }

  method LastSOIIndex(data: seq<byte>) returns (r: int)
    ensures r == LastStart(data)
  {
    hide LastStart, IsPacketStart;
    var i := |data| - 1;
    while i >= 0
      invariant -1 <= i < |data|
      invariant forall k | i < k < |data| :: !IsPacketStart(data[k])
    {
      if IsPacketStart(data[i]) {
        return i;
      }
      i := i - 1;
    }
    return -1;
  }

  class StreamExtractor {
    var buffer: seq<byte>
    const maxBuffer: nat

    ghost predicate Valid()
      reads this
    {
      0 < maxBuffer && |buffer| <= maxBuffer
    }

    constructor WithMaxBuffer(max: int)
      ensures Valid() && buffer == []
      ensures maxBuffer == if max <= 0 then 65536 else max
    {
      buffer := [];
      maxBuffer := if max <= 0 then DEFAULT_MAX_BUFFER else max;
    }

    method Append(chunk: seq<byte>) returns (frames: seq<seq<byte>>)
      requires Valid()
      modifies this
      ensures Valid()
      ensures Parsed(frames, buffer) == AppendResult(old(buffer), chunk, maxBuffer)
    {
      if |chunk| > 0 {
        buffer := buffer + chunk;
        EnforceMaxBuffer();
      }
      assert |chunk| == 0 ==> old(buffer) + chunk == old(buffer);
      ghost var kept := buffer;
      frames := [];
      while true
        invariant |buffer| <= maxBuffer
        invariant Parse(kept) == Before(frames, Parse(buffer))
        decreases |buffer|
      {
        var soi := FirstSOIIndex(buffer);
        if soi < 0 {
          StartFreeSkipped(buffer, []);
          assert buffer + [] == buffer;
          buffer := [];
          return;
        }
        if soi > 0 {
          StartFreeSkipped(buffer[..soi], buffer[soi..]);
          assert buffer == buffer[..soi] + buffer[soi..];
          buffer := buffer[soi..];
        }
        if |buffer| < MIN_PACKET_SIZE {
          return;
        }
        var expectedSize := ExpectedSize(buffer);
        if |buffer| < expectedSize {
          EnforceMaxBuffer();
          return;
        }
        BeforeAssociates(frames, [buffer[..expectedSize]], Parse(buffer[expectedSize..]));
        frames := frames + [buffer[..expectedSize]];
        buffer := buffer[expectedSize..];
      }
    }

    method EnforceMaxBuffer()
      modifies this
      ensures buffer == Capped(old(buffer), maxBuffer)
    {
      hide LastStart, StartFree, IsPacketStart;
      if |buffer| <= maxBuffer {
        return;
      }
      var soi := LastSOIIndex(buffer);
      if soi >= 0 && |buffer[soi..]| <= maxBuffer {
        buffer := buffer[soi..];
        return;
      }
      buffer := [];
    }

    method Reset()
      requires Valid()
      modifies this
      ensures Valid() && buffer == []
    {
      buffer := [];
    }
  }
}
