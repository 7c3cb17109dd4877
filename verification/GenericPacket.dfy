/** Decoding of one generic RFID packet: framing, two's-complement checksum, and the tag data of a UII response. */
module GenericPacket {
  import opened Bytes
  import opened Hex
  import opened GenericStream

  const PACKET_PAD: byte := 0xFF
  const CID_READ_TYPE_C_UII: byte := 0x20
  const RTN_UII_DATA: byte := 0x02
  const RTN_ERROR: byte := 0x07

  datatype Result<+T> = Ok(value: T) | Err(error: PacketError)

  datatype PacketError = TooShort | InvalidStart | InvalidPadding | Truncated

  datatype AntennaData = AntennaData(antenna: byte, pc: nat, epc: string, rssi: byte)

  datatype ParsedPacket = ParsedPacket(
    soi: byte, address: (byte, byte), cid1: byte, rtn: byte, length: byte, info: seq<byte>, rawHex: string,
    checksumOK: bool, tagUID: string)
  {
    // The older names of cid1, length and info.
    function CommandCode(): byte { cid1 }
    function DataLength(): byte { length }
    function Data(): seq<byte> { info }
  }

  function Sum(b: seq<byte>): nat {
    if b == [] then 0 else Sum(b[..|b| - 1]) + b[|b| - 1]
  }

  /** byte((^sum + 1) & 0xff), where ^sum is the bitwise complement -sum - 1. */
  function TwosComplement(sum: int): byte {
    ((-sum - 1) + 1) % 256
  }

  lemma SumOneMore(b: seq<byte>, n: nat)
    requires n < |b|
    ensures Sum(b[..n + 1]) == Sum(b[..n]) + b[n]
  {
    assert b[..n + 1][..n] == b[..n];
  }

  /** A sum of octets is what it should be. */
  lemma {:induction false} SumParts(a: seq<byte>, b: seq<byte>, x: byte)
    ensures Sum([]) == 0 && Sum([x]) == x
    ensures Sum(a + b) == Sum(a) + Sum(b)
    decreases |b|
  {
    assert [x][..0] == [];
    if b == [] {
      assert a + b == a;
    } else {
      var n := |b| - 1;
      SumParts(a, b[..n], x);
      assert (a + b)[..|a| + n] == a + b[..n];
    }
  }

  /** The accumulator loop over the first `n` octets. */
  method SumFirst(data: seq<byte>, n: nat) returns (sum: nat)
    requires n <= |data|
    ensures sum == Sum(data[..n])
  {
    sum := 0;
    for i := 0 to n
      invariant sum == Sum(data[..i])
    {
      SumOneMore(data, i);
      sum := sum + (data[i] as nat);
    }
  }

  method CalculateChecksum(data: seq<byte>) returns (chk: byte)
    ensures Sum(data + [chk]) % 256 == 0
  {
    var sum := SumFirst(data, |data|);
    assert data[..|data|] == data && (data + [TwosComplement(sum)])[..|data|] == data;
    chk := TwosComplement(sum);
  }

  /** A packet validates exactly when it has a packet's length and all its octets sum to 0 mod 256. */
  method ValidateChecksum(data: seq<byte>) returns (ok: bool)
    ensures ok <==> |data| >= 7 && Sum(data) % 256 == 0
  {
    if |data| < 7 {
      return false;
    }
    var sum := SumFirst(data, |data| - 1);
    ComplementMatches(sum, data[|data| - 1]);
    return data[|data| - 1] == TwosComplement(sum);
  }

  lemma ComplementMatches(sum: nat, last: byte)
    ensures last == TwosComplement(sum) <==> (sum + last) % 256 == 0
  {
  }

  // ---- Tag data ----------------------------------------------------------------------------

  /** Octets of EPC announced by the PC word: five bits of length, in 16-bit words. */
  function EpcBytes(pc: nat): (n: nat)
    ensures n <= 62
  {
    (pc / 2048) % 32 * 2
  }

  function StripPrefix(hex: string): string {
    if |hex| > 6 && ToUpper(hex[..6]) == "003000" then hex[6..] else hex
  }

  /** ANT(1) | PC(2) | EPC(N) | RSSI(1); octets after RSSI are ignored. */
  function ParseAntennaData(data: seq<byte>): Result<AntennaData> {
    if |data| < 4 then Err(TooShort)
    else
      var pc := U16(data[1], data[2]);
      var n := EpcBytes(pc);
      if |data| < 3 + n + 1 then Err(Truncated)
      else Ok(AntennaData(data[0], pc, ToUpper(StripPrefix(LowerHex(data[3..3 + n]))), data[3 + n]))
  }

  /** The EPC octets once the protocol prefix 00 30 00 is gone. */
  function WithoutPrefix(epc: seq<byte>): seq<byte> {
    if |epc| > 3 && epc[..3] == [0x00, 0x30, 0x00] then epc[3..] else epc
  }

  /** An EPC that goes on after the prefix loses those three octets, and any other nothing. */
  lemma PrefixSpelled(rest: seq<byte>, epc: seq<byte>)
    ensures rest != [] ==> WithoutPrefix([0x00, 0x30, 0x00] + rest) == rest
    ensures WithoutPrefix([0x00, 0x30, 0x00]) == [0x00, 0x30, 0x00]
    ensures |epc| < 3 || epc[0] != 0x00 || epc[1] != 0x30 || epc[2] != 0x00 ==> WithoutPrefix(epc) == epc
  {
    if |epc| >= 3 {
      assert epc[..3][0] == epc[0] && epc[..3][1] == epc[1] && epc[..3][2] == epc[2];
    }
  }

  /** On success the EPC text is the hex of the announced octets, prefix removed: the text form loses no other octet. */
  lemma EpcMeaning(data: seq<byte>)
    requires ParseAntennaData(data).Ok?
    ensures var n := EpcBytes(U16(data[1], data[2]));
            && n == data[1] / 8 * 2
            && |data| >= 3 + n + 1
            && ParseAntennaData(data).value.epc == UpperHex(WithoutPrefix(data[3..3 + n]))
            && ParseAntennaData(data).value.rssi == data[3 + n]
  {
    LengthBits(data[1], data[2]);
    var n := EpcBytes(U16(data[1], data[2]));
    var epc := data[3..3 + n];
    if |epc| > 3 {
      var p: seq<byte> := [0x00, 0x30, 0x00];
      assert epc == epc[..3] + epc[3..];
      LowerHexSplit(epc[..3], epc[3..]);
      var hex := LowerHex(epc);
      assert hex[..6] == LowerHex(epc[..3]) && hex[6..] == LowerHex(epc[3..]);
      PrefixText();
      if UpperHex(epc[..3]) == "003000" {
        UpperHexInjective(epc[..3], p);
      }
    }
  }

  lemma LengthBits(hi: byte, lo: byte)
    ensures EpcBytes(U16(hi, lo)) == hi / 8 * 2
  {
  }

  lemma PrefixText()
    ensures UpperHex([0x00, 0x30, 0x00]) == "003000"
  {
    var p: seq<byte> := [0x00, 0x30, 0x00];
    LowerHexAt(p, 0);
    LowerHexAt(p, 1);
    LowerHexAt(p, 2);
  }

  // ---- Whole packets -----------------------------------------------------------------------

  /** What ParsePacket is specified to return. */
  function PacketOf(raw: seq<byte>): Result<ParsedPacket> {
    if |raw| < MIN_PACKET_SIZE then Err(TooShort)
    else if !IsPacketStart(raw[0]) then Err(InvalidStart)
    else if raw[1] != PACKET_PAD || raw[2] != PACKET_PAD then Err(InvalidPadding)
    else if |raw| < ExpectedSize(raw) then Err(Truncated)
    else
      var n := ExpectedSize(raw);
      var info := raw[6..n - 1];
      Ok(ParsedPacket(raw[0], (raw[1], raw[2]), raw[3], raw[4], raw[5], info, LowerHex(raw[..n]),
                      Sum(raw[..n]) % 256 == 0, TagUIDOf(raw[3], raw[4], info)))
  }

  function TagUIDOf(cid1: byte, rtn: byte, info: seq<byte>): string {
    if cid1 == CID_READ_TYPE_C_UII && rtn == RTN_UII_DATA && ParseAntennaData(info).Ok?
    then ParseAntennaData(info).value.epc
    else ""
  }

  /** The UID of a UII response whose data parses; empty otherwise. */
  method TagUID(cid1: byte, rtn: byte, info: seq<byte>) returns (uid: string)
    ensures uid == TagUIDOf(cid1, rtn, info)
  {
    uid := "";
    if cid1 == CID_READ_TYPE_C_UII && rtn == RTN_UII_DATA && |info| > 0 {
      var parsed := ParseAntennaData(info);
      if parsed.Ok? {
        uid := parsed.value.epc;
      }
    }
  }

  method ParsePacket(raw: seq<byte>) returns (p: Result<ParsedPacket>)
    ensures p == PacketOf(raw)
  {
    if |raw| < MIN_PACKET_SIZE {
      return Err(TooShort);
    }
    if raw[0] != PACKET_START_COMMAND && raw[0] != PACKET_START_RESPONSE {
      return Err(InvalidStart);
    }
    if raw[1] != PACKET_PAD || raw[2] != PACKET_PAD {
      return Err(InvalidPadding);
    }
    var expectedSize := ExpectedSize(raw);
    if |raw| < expectedSize {
      return Err(Truncated);
    }
    hide ParseAntennaData, TwosComplement, Sum, LowerHex, ToUpper, StripPrefix;
    var checksumIdx := expectedSize - 1;
    var packet := raw[..expectedSize];
    assert raw[..checksumIdx + 1] == packet;
    var info := raw[6..checksumIdx];
    var sum := SumFirst(raw, checksumIdx);
    SumOneMore(raw, checksumIdx);
    ComplementMatches(sum, raw[checksumIdx]);
    var checksumOK := TwosComplement(sum) == raw[checksumIdx];
    assert checksumOK <==> Sum(packet) % 256 == 0;
    var tagUID := TagUID(raw[3], raw[4], info);
    hide TagUIDOf;
    p := Ok(ParsedPacket(raw[0], (raw[1], raw[2]), raw[3], raw[4], raw[5], info, LowerHex(packet), checksumOK, tagUID));
  }

  predicate IsDataPacket(p: ParsedPacket) {
    p.cid1 == CID_READ_TYPE_C_UII && p.rtn == RTN_UII_DATA
  }

  /** An acknowledgement and a tag of one EPC word, octet by octet, and what is refused. */
  lemma KnownPackets()
    ensures var p := PacketOf([0x7C, 0xFF, 0xFF, 0x20, 0x00, 0x00, 0x66]);
            p.Ok? && p.value.checksumOK && p.value.info == [] && p.value.rtn == 0x00 && p.value.tagUID == "" &&
            !IsDataPacket(p.value)
    ensures var p := PacketOf([0xCC, 0xFF, 0xFF, 0x20, 0x02, 0x06, 0x00, 0x08, 0x00, 0xAB, 0xCD, 0xC9, 0xC5]);
            p.Ok? && p.value.checksumOK && p.value.info == [0x00, 0x08, 0x00, 0xAB, 0xCD, 0xC9] &&
            p.value.soi == 0xCC && p.value.address == (0xFF, 0xFF) && p.value.cid1 == 0x20 && p.value.rtn == 0x02 &&
            p.value.tagUID == "ABCD" && IsDataPacket(p.value)
    ensures ParseAntennaData([0x00, 0x08, 0x00, 0xAB, 0xCD, 0xC9]) == Ok(AntennaData(0x00, 0x0800, "ABCD", 0xC9))
    ensures PacketOf([0x7C, 0xFF, 0xFF, 0x20, 0x00, 0x00]) == Err(TooShort)
    ensures PacketOf([0x7D, 0xFF, 0xFF, 0x20, 0x00, 0x00, 0x66]) == Err(InvalidStart)
    ensures PacketOf([0x7C, 0xFF, 0xFE, 0x20, 0x00, 0x00, 0x66]) == Err(InvalidPadding)
    ensures PacketOf([0x7C, 0xFF, 0xFF, 0x20, 0x00, 0x01, 0x66]) == Err(Truncated)
  {
    hide Sum, LowerHex, ToUpper;
    KnownSums();
    KnownEpc();
    var ack: seq<byte> := [0x7C, 0xFF, 0xFF, 0x20, 0x00, 0x00, 0x66];
    var tag: seq<byte> := [0xCC, 0xFF, 0xFF, 0x20, 0x02, 0x06, 0x00, 0x08, 0x00, 0xAB, 0xCD, 0xC9, 0xC5];
    assert ack[..7] == ack && tag[..13] == tag;
    assert ack[6..6] == [] && tag[6..12] == [0x00, 0x08, 0x00, 0xAB, 0xCD, 0xC9];
  }

  lemma KnownSums()
    ensures Sum([0x7C, 0xFF, 0xFF, 0x20, 0x00, 0x00, 0x66]) == 768
    ensures Sum([0xCC, 0xFF, 0xFF, 0x20, 0x02, 0x06, 0x00, 0x08, 0x00, 0xAB, 0xCD, 0xC9, 0xC5]) == 1536
  {
    SumOfFour(0x7C, 0xFF, 0xFF, 0x20);
    SumOfFour(0x00, 0x00, 0x66, 0x00);
    SumParts([0x7C, 0xFF, 0xFF, 0x20], [0x00, 0x00, 0x66], 0);
    assert [0x7C, 0xFF, 0xFF, 0x20] + [0x00, 0x00, 0x66] == [0x7C, 0xFF, 0xFF, 0x20, 0x00, 0x00, 0x66];
    SumOfFour(0xCC, 0xFF, 0xFF, 0x20);
    SumOfFour(0x02, 0x06, 0x00, 0x08);
    SumOfFour(0x00, 0xAB, 0xCD, 0xC9);
    var a: seq<byte>, b: seq<byte> := [0xCC, 0xFF, 0xFF, 0x20], [0x02, 0x06, 0x00, 0x08];
    var c: seq<byte> := [0x00, 0xAB, 0xCD, 0xC9];
    SumParts(a, b, 0);
    SumParts(a + b, c, 0xC5);
    SumParts(a + b + c, [0xC5], 0xC5);
    assert a + b + c + [0xC5] ==
           [0xCC, 0xFF, 0xFF, 0x20, 0x02, 0x06, 0x00, 0x08, 0x00, 0xAB, 0xCD, 0xC9, 0xC5];
  }

  lemma SumOfFour(a: byte, b: byte, c: byte, d: byte)
    ensures Sum([a, b, c]) == a + b + c && Sum([a, b, c, d]) == a + b + c + d
  {
    assert [a][..0] == [] && Sum([a]) == a;
    assert [a, b][..1] == [a] && Sum([a, b]) == a + b;
    assert [a, b, c][..2] == [a, b] && Sum([a, b, c]) == a + b + c;
    assert [a, b, c, d][..3] == [a, b, c];
  }

  lemma KnownEpc()
    ensures ParseAntennaData([0x00, 0x08, 0x00, 0xAB, 0xCD, 0xC9]) == Ok(AntennaData(0x00, 0x0800, "ABCD", 0xC9))
    ensures ParseAntennaData([]) == Err(TooShort)
  {
    var data: seq<byte> := [0x00, 0x08, 0x00, 0xAB, 0xCD, 0xC9];
    EpcMeaning(data);
    assert data[3..5] == [0xAB, 0xCD];
    assert UpperHex([0xAB, 0xCD]) == "ABCD" by {
      TwoOctets(0xAB, 0xCD);
    }
  }
}
