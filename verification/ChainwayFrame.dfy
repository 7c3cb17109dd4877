/** The Chainway UR4 frame: A5 5A | LEN(2) | CMD | DATA | CHK | 0D 0A, CHK the XOR of LEN..DATA. */
module ChainwayFrame {
  import opened Bytes

  const HEADER1: byte := 0xA5
  const HEADER2: byte := 0x5A
  const TRAILER1: byte := 0x0D
  const TRAILER2: byte := 0x0A
  const FRAME_OVERHEAD := 8
  const MIN_FRAME_LEN := FRAME_OVERHEAD
  const MAX_FRAME_LEN := 2048

  datatype FrameError = HeaderError | TrailerError | ChecksumError | LengthError

  datatype Frame = Frame(cmd: byte, data: seq<byte>)

  datatype Result<+T> = Ok(value: T) | Err(error: FrameError)

  /** XOR of all octets, first to last. */
  function ChecksumOf(b: seq<byte>): byte {
    if b == [] then 0 else Xor(ChecksumOf(b[..|b| - 1]), b[|b| - 1])
  }

  method Checksum(b: seq<byte>) returns (chk: byte)
    ensures chk == ChecksumOf(b)
  {
    chk := 0;
    for i := 0 to |b|
      invariant chk == ChecksumOf(b[..i])
    {
      assert b[..i + 1][..i] == b[..i];
      chk := Xor(chk, b[i]);
    }
    assert b[..|b|] == b;
  }

  /** Bit `k` of the checksum is the parity of the octets that have it set. */
  lemma {:induction false} ChecksumIsParity(b: seq<byte>, k: nat)
    requires k < 8
    ensures Bit(ChecksumOf(b), k) == |Having(b, k)| % 2
  {
    hide Xor, Bit, Having;
    HavingSnoc(b, k);
    if b == [] {
      ZeroHasNoBit(k);
    } else {
      var n := |b| - 1;
      ChecksumIsParity(b[..n], k);
      XorIsBitwise(ChecksumOf(b[..n]), b[n], k);
    }
  }

  lemma HavingSnoc(b: seq<byte>, k: nat)
    ensures |Having([], k)| == 0
    ensures b != [] ==> |Having(b, k)| == |Having(b[..|b| - 1], k)| + Bit(b[|b| - 1], k)
  {
    assert Having([], k) == {};
    if b != [] {
      var n := |b| - 1;
      assert Having(b, k) == Having(b[..n], k) + if Bit(b[n], k) == 1 then {n} else {};
    }
  }

  lemma {:induction false} ZeroHasNoBit(k: nat)
    ensures Bit(0, k) == 0
  {
    if k > 0 {
      ZeroHasNoBit(k - 1);
    }
  }

  /** The positions of the octets with bit `k` set. */
  function Having(b: seq<byte>, k: nat): set<nat> {
    set i: nat | i < |b| && Bit(b[i], k) == 1
  }

  /** The one frame carrying `cmd` and `data`, laid out field by field. */
  function FrameBytes(cmd: byte, data: seq<byte>): (raw: seq<byte>)
    requires FRAME_OVERHEAD + |data| <= MAX_FRAME_LEN
    ensures |raw| == FRAME_OVERHEAD + |data|
  {
    var body := Length(FRAME_OVERHEAD + |data|) + [cmd] + data;
    [HEADER1, HEADER2] + body + [ChecksumOf(body), TRAILER1, TRAILER2]
  }

  function Length(total: nat): (b: seq<byte>)
    requires total < 0x1_0000
    ensures |b| == 2 && U16(b[0], b[1]) == total
  {
    [total / 256, total % 256]
  }

  /** Fills a fresh buffer in place, refusing what would exceed the frame limit. */
  method Encode(cmd: byte, data: seq<byte>) returns (out: Result<array<byte>>)
    ensures out.Ok? <==> FRAME_OVERHEAD + |data| <= MAX_FRAME_LEN
    ensures out.Ok? ==> fresh(out.value) && out.value[..] == FrameBytes(cmd, data)
    ensures out.Err? ==> out.error == LengthError
  {
    hide ChecksumOf, Xor;
    var total := FRAME_OVERHEAD + |data|;
    if total > MAX_FRAME_LEN {
      return Err(LengthError);
    }
    var a := new byte[total];
    a[0], a[1] := HEADER1, HEADER2;
    var length := Length(total);
    a[2], a[3] := length[0], length[1];
    a[4] := cmd;
    forall i | 0 <= i < |data| {
      a[5 + i] := data[i];
    }
    ghost var body := length + [cmd] + data;
    assert a[..total - 3] == [HEADER1, HEADER2] + body;
    assert a[2..total - 3] == body;
    var chk := Checksum(a[2..total - 3]);
    a[total - 3], a[total - 2], a[total - 1] := chk, TRAILER1, TRAILER2;
    assert a[..] == a[..total - 3] + [chk, TRAILER1, TRAILER2];
    assert a[..total - 3] == [HEADER1, HEADER2] + body;
    out := Ok(a);
  }

  /** Validates one complete frame; the checks run in the source's order. */
  function Decode(raw: seq<byte>): (r: Result<Frame>) {
    var n := |raw|;
    if n < MIN_FRAME_LEN then Err(LengthError)
    else if raw[0] != HEADER1 || raw[1] != HEADER2 then Err(HeaderError)
    else if U16(raw[2], raw[3]) != n || n > MAX_FRAME_LEN then Err(LengthError)
    else if raw[n - 2] != TRAILER1 || raw[n - 1] != TRAILER2 then Err(TrailerError)
    else if ChecksumOf(raw[2..n - 3]) != raw[n - 3] then Err(ChecksumError)
    else Ok(Frame(raw[4], raw[5..n - 3]))
  }

  predicate Accepted(raw: seq<byte>) {
    Decode(raw).Ok?
  }

  /** What Encode writes, Decode reads back. */
  lemma DecodeEncode(cmd: byte, data: seq<byte>)
    requires FRAME_OVERHEAD + |data| <= MAX_FRAME_LEN
    ensures Decode(FrameBytes(cmd, data)) == Ok(Frame(cmd, data))
  {
    var raw := FrameBytes(cmd, data);
    var n := |raw|;
    assert raw[2..n - 3] == Length(n) + [cmd] + data;
    assert raw[2..4] == Length(n);
    assert raw[2] == raw[2..4][0] && raw[3] == raw[2..4][1];
    assert raw[5..n - 3] == data;
  }

  /** Every accepted frame is the encoding of what Decode returns, so acceptance is exactly being an encoding. */
  lemma EncodeDecode(raw: seq<byte>)
    requires Accepted(raw)
    ensures FRAME_OVERHEAD + |Decode(raw).value.data| <= MAX_FRAME_LEN
    ensures FrameBytes(Decode(raw).value.cmd, Decode(raw).value.data) == raw
  {
    var f := Decode(raw).value;
    var n := |raw|;
    var body := Length(n) + [f.cmd] + f.data;
    LengthDigits(raw[2], raw[3]);
    assert body == raw[2..n - 3];
    assert raw == raw[..2] + raw[2..n - 3] + raw[n - 3..];
  }

  lemma LengthDigits(hi: byte, lo: byte)
    ensures Length(U16(hi, lo)) == [hi, lo]
  {
  }

  /** An accepted frame with any single octet changed is refused. */
  lemma SingleByteCorruptionRefused(raw: seq<byte>, i: nat, v: byte)
    requires Accepted(raw) && i < |raw| && v != raw[i]
    ensures !Accepted(raw[i := v])
  {
    var n := |raw|;
    var bad := raw[i := v];
    if 4 <= i < n - 3 {
      assert bad[2..n - 3] == raw[2..n - 3][i - 2 := v];
      ChecksumDetectsChange(raw[2..n - 3], i - 2, v);
    } else if i == n - 3 {
      assert bad[2..n - 3] == raw[2..n - 3];
    }
  }

  lemma {:induction false} ChecksumDetectsChange(b: seq<byte>, i: nat, v: byte)
    requires i < |b| && v != b[i]
    ensures ChecksumOf(b[i := v]) != ChecksumOf(b)
  {
    var last := |b| - 1;
    var c := b[i := v];
    if i == last {
      assert c[..last] == b[..last];
      XorCancels(ChecksumOf(b[..last]), b[last], v);
    } else {
      assert c[..last] == b[..last][i := v];
      ChecksumDetectsChange(b[..last], i, v);
      XorCancels(b[last], ChecksumOf(b[..last]), ChecksumOf(c[..last]));
    }
  }

  /** Frames of the UR4: stop-inventory, start-inventory and a stop response, octet by octet, and what is refused. */
  lemma KnownFrames()
    ensures Decode([0xA5, 0x5A, 0x00, 0x08, 0x8C, 0x84, 0x0D, 0x0A]) == Ok(Frame(0x8C, []))
    ensures Decode([0xA5, 0x5A, 0x00, 0x0A, 0x82, 0x00, 0x00, 0x88, 0x0D, 0x0A]) == Ok(Frame(0x82, [0x00, 0x00]))
    ensures Decode([0xA5, 0x5A, 0x00, 0x09, 0x8D, 0x01, 0x85, 0x0D, 0x0A]) == Ok(Frame(0x8D, [0x01]))
    ensures Decode([0xA5, 0x5A, 0x00]) == Err(LengthError)
    ensures Decode([0xA4, 0x5A, 0x00, 0x08, 0x8C, 0x84, 0x0D, 0x0A]) == Err(HeaderError)
    ensures Decode([0xA5, 0x5A, 0x00, 0x09, 0x8C, 0x84, 0x0D, 0x0A]) == Err(LengthError)
    ensures Decode([0xA5, 0x5A, 0x00, 0x08, 0x8C, 0x84, 0x0D, 0x0D]) == Err(TrailerError)
    ensures Decode([0xA5, 0x5A, 0x00, 0x08, 0x8C, 0x85, 0x0D, 0x0A]) == Err(ChecksumError)
  {
    KnownChecksums();
    hide ChecksumOf, Xor;
    var stop: seq<byte> := [0xA5, 0x5A, 0x00, 0x08, 0x8C, 0x84, 0x0D, 0x0A];
    var wrong: seq<byte> := [0xA5, 0x5A, 0x00, 0x08, 0x8C, 0x85, 0x0D, 0x0A];
    var start: seq<byte> := [0xA5, 0x5A, 0x00, 0x0A, 0x82, 0x00, 0x00, 0x88, 0x0D, 0x0A];
    var stopped: seq<byte> := [0xA5, 0x5A, 0x00, 0x09, 0x8D, 0x01, 0x85, 0x0D, 0x0A];
    assert stop[2..5] == [0x00, 0x08, 0x8C] == wrong[2..5];
    assert start[2..7] == [0x00, 0x0A, 0x82, 0x00, 0x00];
    assert stopped[2..6] == [0x00, 0x09, 0x8D, 0x01];
    assert stop[5..5] == [] && start[5..7] == [0x00, 0x00] && stopped[5..6] == [0x01];
  }

  lemma KnownChecksums()
    ensures ChecksumOf([]) == 0
    ensures ChecksumOf([0x00, 0x08, 0x8C]) == 0x84
    ensures ChecksumOf([0x00, 0x0A, 0x82, 0x00, 0x00]) == 0x88
    ensures ChecksumOf([0x00, 0x09, 0x8D, 0x01]) == 0x85
  {
    XorValues();
    hide Xor, ChecksumOf;
    ChecksumOfThree(0x00, 0x08, 0x8C);
    ChecksumOfThree(0x00, 0x0A, 0x82);
    ChecksumOfThree(0x00, 0x09, 0x8D);
    ChecksumSnoc([0x00, 0x0A, 0x82], 0x00);
    ChecksumSnoc([0x00, 0x0A, 0x82, 0x00], 0x00);
    ChecksumSnoc([0x00, 0x09, 0x8D], 0x01);
    assert [0x00, 0x0A, 0x82] + [0x00] == [0x00, 0x0A, 0x82, 0x00];
    assert [0x00, 0x0A, 0x82, 0x00] + [0x00] == [0x00, 0x0A, 0x82, 0x00, 0x00];
    assert [0x00, 0x09, 0x8D] + [0x01] == [0x00, 0x09, 0x8D, 0x01];
  }

  lemma ChecksumSnoc(b: seq<byte>, x: byte)
    ensures ChecksumOf(b + [x]) == Xor(ChecksumOf(b), x)
    ensures ChecksumOf([]) == 0
  {
    assert (b + [x])[..|b|] == b;
  }

  lemma ChecksumOfThree(a: byte, b: byte, c: byte)
    ensures ChecksumOf([a, b, c]) == Xor(Xor(Xor(0, a), b), c)
  {
    ChecksumSnoc([], a);
    ChecksumSnoc([a], b);
    ChecksumSnoc([a, b], c);
    assert [a, b] + [c] == [a, b, c] && [a] + [b] == [a, b] && [] + [a] == [a];
  }

  lemma XorValues()
    ensures Xor(0x00, 0x00) == 0x00 && Xor(0x00, 0x08) == 0x08 && Xor(0x08, 0x8C) == 0x84
    ensures Xor(0x00, 0x0A) == 0x0A && Xor(0x0A, 0x82) == 0x88 && Xor(0x88, 0x00) == 0x88
    ensures Xor(0x00, 0x09) == 0x09 && Xor(0x09, 0x8D) == 0x84 && Xor(0x84, 0x01) == 0x85
  {
    XorZero(0x00, 8);
    XorZero(0x08, 8);
    XorZero(0x0A, 8);
    XorZero(0x09, 8);
    XorZero(0x88, 8);
    XorBitsCommutes(0x88, 0x00, 8);
    XorOfEight();
    XorOfTen();
    XorOfNine();
  }

  lemma XorOfEight()
    ensures XorBits(0x08, 0x8C, 8) == 0x84
  {
    assert XorBits(0, 8, 4) == 8;
    assert XorBits(1, 0x11, 5) == 16;
    assert XorBits(2, 0x23, 6) == 33;
    assert XorBits(4, 0x46, 7) == 66;
  }

  lemma XorOfTen()
    ensures XorBits(0x0A, 0x82, 8) == 0x88
  {
    assert XorBits(0, 8, 4) == 8;
    assert XorBits(1, 0x10, 5) == 17;
    assert XorBits(2, 0x20, 6) == 34;
    assert XorBits(5, 0x41, 7) == 68;
  }

  lemma XorOfNine()
    ensures XorBits(0x09, 0x8D, 8) == 0x84 && XorBits(0x84, 0x01, 8) == 0x85
  {
    assert XorBits(0, 8, 4) == 8 && XorBits(8, 0, 4) == 8;
    assert XorBits(1, 0x11, 5) == 16 && XorBits(0x10, 0, 5) == 16;
    assert XorBits(2, 0x23, 6) == 33 && XorBits(0x21, 0, 6) == 33;
    assert XorBits(4, 0x46, 7) == 66 && XorBits(0x42, 0, 7) == 66;
  }

  /** The longest payload a frame carries. */
  lemma LongestPayload(cmd: byte, data: seq<byte>)
    ensures (exists raw :: Decode(raw) == Ok(Frame(cmd, data))) <==> |data| <= 2040
  {
    if |data| <= 2040 {
      DecodeEncode(cmd, data);
    }
    forall raw | Decode(raw) == Ok(Frame(cmd, data))
      ensures |data| <= 2040
    {
      EncodeDecode(raw);
    }
    if |data| <= 2040 {
      assert Decode(FrameBytes(cmd, data)) == Ok(Frame(cmd, data));
    }
  }
}
