/** The payload of a Chainway tag notification, field by field. */
module ChainwayCommands {
  import opened Wrappers
  import opened Bytes
  import opened Hex

  const CMD_TAG_NOTIFICATION: byte := 0x83
  const TID_LEN := 12
  const RSSI_ANT_LEN := 3
  const MAX_RSSI_TENTHS := 2000

  /** RSSI as a magnitude in tenths of a dBm below zero, when the reader reported a usable one. */
  datatype Tag = Tag(pc: nat, epc: string, tid: string, user: string, rssi: Option<nat>, antenna: byte)

  /** The fields of a notification payload, as octets. */
  datatype TagParts = TagParts(
    pcHi: byte, pcLo: byte, epc: seq<byte>, tid: seq<byte>, user: seq<byte>, rssiHi: byte, rssiLo: byte, antenna: byte)

  /** EPC length from the top five bits of the PC word; no TID and no user data, or a 12-octet TID and any user data. */
  predicate WellFormed(t: TagParts) {
    |t.epc| == t.pcHi / 8 * 2 && (|t.tid| == TID_LEN || (t.tid == [] && t.user == []))
  }

  /** PC(2) | EPC | [TID(12) | USER] | RSSI(2) | ANT(1) */
  function TagData(t: TagParts): seq<byte> {
    [t.pcHi, t.pcLo] + t.epc + t.tid + t.user + [t.rssiHi, t.rssiLo, t.antenna]
  }

  function RssiOf(hi: byte, lo: byte): Option<nat> {
    var magnitude := 65535 - U16(hi, lo);
    if 0 < magnitude < MAX_RSSI_TENTHS then Some(magnitude) else None
  }

  function TagOf(t: TagParts): Tag {
    Tag(U16(t.pcHi, t.pcLo), UpperHex(t.epc), UpperHex(t.tid), UpperHex(t.user), RssiOf(t.rssiHi, t.rssiLo), t.antenna)
  }

  /** The fields a payload splits into, if it does. */
  function Split(data: seq<byte>): (r: Option<TagParts>)
    ensures r.Some? ==> WellFormed(r.value) && TagData(r.value) == data
  {
    if |data| < 2 + RSSI_ANT_LEN then None
    else
      var n, end := data[0] / 8 * 2, |data| - RSSI_ANT_LEN;
      if end < 2 + n || 2 + n < end < 2 + n + TID_LEN then None
      else
        var t := if end == 2 + n then 2 + n else 2 + n + TID_LEN;
        Some(TagParts(data[0], data[1], data[2..2 + n], data[2 + n..t], data[t..end],
                      data[end], data[end + 1], data[end + 2]))
  }

  /** Advances through the payload field by field. */
  method ParseTag(data: seq<byte>) returns (tag: Option<Tag>)
    ensures tag == if Split(data).Some? then Some(TagOf(Split(data).value)) else None
    ensures forall t: TagParts | WellFormed(t) && TagData(t) == data ::
              && tag.Some? && tag.value.pc == 256 * t.pcHi + t.pcLo && tag.value.antenna == t.antenna
              && tag.value.epc == UpperHex(t.epc) && tag.value.tid == UpperHex(t.tid)
              && tag.value.user == UpperHex(t.user)
              && forall m: nat :: tag.value.rssi == Some(m) <==> 0 < m < 2000 && 256 * t.rssiHi + t.rssiLo + m == 65535
  {
    forall t: TagParts | WellFormed(t) && TagData(t) == data
      ensures Split(data) == Some(t)
    {
      TagDataPartition(data, t);
    }
    if |data| < 2 + RSSI_ANT_LEN {
      return None;
    }
    var epcLen := data[0] / 8 * 2;
    var extra: int := |data| - 2 - epcLen - RSSI_ANT_LEN;
    if extra < 0 {
      return None;
    }
    if 0 < extra < TID_LEN {
      return None;
    }
    var pos := 2;
    var epc := UpperHex(data[pos..pos + epcLen]);
    pos := pos + epcLen;
    var tid, user := UpperHex([]), UpperHex([]);
    if extra > 0 {
      tid := UpperHex(data[pos..pos + TID_LEN]);
      pos := pos + TID_LEN;
      user := UpperHex(data[pos..pos + extra - TID_LEN]);
      pos := pos + extra - TID_LEN;
    }
    tag := Some(Tag(U16(data[0], data[1]), epc, tid, user, RssiOf(data[pos], data[pos + 1]), data[pos + 2]));
  }

  /** A payload is accepted exactly when it is the concatenation of well-formed fields, and those fields are unique. */
  lemma TagDataPartition(data: seq<byte>, t: TagParts)
    ensures WellFormed(t) && TagData(t) == data <==> Split(data) == Some(t)
  {
    if WellFormed(t) && TagData(t) == data {
      var n, end := |t.epc|, |data| - RSSI_ANT_LEN;
      assert data[2..2 + n] == t.epc;
      assert data[2 + n..2 + n + |t.tid|] == t.tid;
      assert data[2 + n + |t.tid|..end] == t.user;
    }
  }

  /** Payloads of one EPC word, without and with a TID and user data, octet by octet, and what is refused. */
  lemma KnownTags()
    ensures Split([0x08, 0x00, 0xAB, 0xCD, 0xFC, 0x5E, 0x03]) ==
            Some(TagParts(0x08, 0x00, [0xAB, 0xCD], [], [], 0xFC, 0x5E, 0x03))
    ensures Split([0x08, 0x00, 0xAB, 0xFC, 0x5E, 0x03]) == None
    ensures RssiOf(0xFC, 0x5E) == Some(929) && RssiOf(0xF8, 0x30) == Some(1999)
    ensures RssiOf(0xFF, 0xFF) == None && RssiOf(0xF8, 0x2F) == None
    ensures CMD_TAG_NOTIFICATION == 0x83
  {
    var short: seq<byte> := [0x08, 0x00, 0xAB, 0xCD, 0xFC, 0x5E, 0x03];
    assert short[2..4] == [0xAB, 0xCD] && short[4..4] == [];
  }

  lemma KnownTagWithTid()
    ensures Split([0x08, 0x00, 0xAB, 0xCD, 1, 2, 3, 4, 5, 6, 7, 8, 9, 10, 11, 12, 0xDE, 0xAD, 0xFC, 0x5E, 0x04]) ==
            Some(TagParts(
                     0x08, 0x00, [0xAB, 0xCD], [1, 2, 3, 4, 5, 6, 7, 8, 9, 10, 11, 12], [0xDE, 0xAD], 0xFC, 0x5E, 0x04))
  {
    hide Split;
    var tid: seq<byte> := [1, 2, 3, 4, 5, 6, 7, 8, 9, 10, 11, 12];
    var long := [0x08, 0x00, 0xAB, 0xCD, 1, 2, 3, 4, 5, 6, 7, 8, 9, 10, 11, 12, 0xDE, 0xAD, 0xFC, 0x5E, 0x04];
    var t := TagParts(0x08, 0x00, [0xAB, 0xCD], tid, [0xDE, 0xAD], 0xFC, 0x5E, 0x04);
    assert TagData(t) == long;
    TagDataPartition(long, t);
  }

  /** Eleven octets after the EPC are too few for a TID and belong to no field. */
  lemma KnownTagWithShortTid()
    ensures Split([0x08, 0x00, 0xAB, 0xCD, 1, 2, 3, 4, 5, 6, 7, 8, 9, 10, 11, 0xFC, 0x5E, 0x04]) == None
  {
  }
}
