/** From the octets of one antenna connection to the readings handed to the cache. */
module Readings {
  import opened Wrappers
  import opened Bytes
  import opened Hex
  import CF = ChainwayFrame
  import CS = ChainwayStream
  import CC = ChainwayCommands
  import GP = GenericPacket
  import GS = GenericStream

  const READ_BUFFER := 4096

  datatype Protocol = Generic | Chainway | Unsupported

  datatype Reading = Reading(antennaID: string, gatewayID: string, epc: string, rssi: nat)

  /** What the packet context holds for the lifetime of a connection. */
  datatype Config = Config(antennaID: string, gatewayID: string, protocol: Protocol, portLocations: map<byte, string>,
                           hasCache: bool)

  datatype HandlerError = BadFrame | NoCache | StoreFailed | UnsupportedProtocol

  /** The dBm magnitude rounded half up, or 0 when unknown. */
  function StoredRssi(t: CC.Tag): (r: nat)
    ensures t.rssi.Some? && t.rssi.value < CC.MAX_RSSI_TENTHS ==> r <= 200
  {
    match t.rssi
    case None => 0
    case Some(tenths) => (tenths + 5) / 10
  }

  function AntennaFor(c: Config, port: byte): string {
    if port in c.portLocations && c.portLocations[port] != "" then c.portLocations[port] else c.antennaID
  }

  function ChainwayReading(c: Config, t: CC.Tag): Reading {
    Reading(AntennaFor(c, t.antenna), c.gatewayID, t.epc, StoredRssi(t))
  }

  /** The readings one frame hands to the cache: one or none. */
  function ReadingsOf(c: Config, frame: seq<byte>): seq<Reading> {
    if !c.hasCache then []
    else match c.protocol
      case Generic => GenericReadings(c, frame)
      case Chainway => ChainwayReadings(c, frame)
      case Unsupported => []
  }

  /** What the generic handler takes from any octets: header, zero sum over all of them, UII response, tag data. */
  function GenericReadings(c: Config, frame: seq<byte>): seq<Reading> {
    if && |frame| >= GS.MIN_PACKET_SIZE && GS.IsPacketStart(frame[0])
       && frame[1] == GP.PACKET_PAD && frame[2] == GP.PACKET_PAD
       && GP.Sum(frame) % 256 == 0
       && frame[3] == GP.CID_READ_TYPE_C_UII && frame[4] == GP.RTN_UII_DATA
       && |frame| >= GS.ExpectedSize(frame)
    then UIIReadings(c, frame[6..GS.ExpectedSize(frame) - 1])
    else []
  }

  function UIIReadings(c: Config, info: seq<byte>): seq<Reading> {
    match GP.ParseAntennaData(info)
    case Ok(d) => [Reading(c.antennaID, c.gatewayID, d.epc, d.rssi)]
    case Err(_) => []
  }

  /** On the frames the extractor emits, the handler stores EPC e exactly when the packet parser, a separate code
      path, accepts the frame with a good checksum as tag data whose antenna data carries e. */
  lemma GenericReadingIffParsed(c: Config, frame: seq<byte>, e: string)
    requires c.hasCache && c.protocol == Generic && GS.IsFrame(frame)
    ensures (exists r :: ReadingsOf(c, frame) == [r] && r.epc == e) <==>
            var p := GP.PacketOf(frame);
            && p.Ok? && p.value.checksumOK && GP.IsDataPacket(p.value)
            && GP.ParseAntennaData(p.value.info).Ok? && GP.ParseAntennaData(p.value.info).value.epc == e
  {
    assert frame[..|frame|] == frame;
    var p := GP.PacketOf(frame);
    if p.Ok? && GP.ParseAntennaData(p.value.info).Ok? {
      var d := GP.ParseAntennaData(p.value.info).value;
      assert UIIReadings(c, p.value.info) == [Reading(c.antennaID, c.gatewayID, d.epc, d.rssi)];
    }
  }

  /** The same from the octets: where each field of the frame is, and what of it the reading carries. */
  lemma GenericReadingSpelled(c: Config, frame: seq<byte>, r: Reading)
    requires c.hasCache && c.protocol == Generic
    ensures ReadingsOf(c, frame) == [r] <==>
            && |frame| >= 7 && frame[0] in {0x7C, 0xCC} && frame[1] == frame[2] == 0xFF
            && frame[3] == 0x20 && frame[4] == 0x02 && frame[5] >= 4 && |frame| - 7 >= frame[5]
            && GP.Sum(frame) % 256 == 0
            && var n := frame[7] / 8 * 2;
               && frame[5] >= 4 + n
               && r.antennaID == c.antennaID && r.gatewayID == c.gatewayID
               && r.epc == UpperHex(GP.WithoutPrefix(frame[9..9 + n])) && r.rssi == frame[9 + n]
  {
    hide UIIReadings, GP.Sum, UpperHex, GP.WithoutPrefix;
    if |frame| >= 7 && |frame| - 7 >= frame[5] {
      TagDataSpelled(c, frame, r);
    }
  }

  lemma TagDataSpelled(c: Config, frame: seq<byte>, r: Reading)
    requires |frame| >= 7 && |frame| - 7 >= frame[5]
    ensures |frame| >= GS.ExpectedSize(frame)
    ensures UIIReadings(c, frame[6..GS.ExpectedSize(frame) - 1]) == [r] <==>
            && frame[5] >= 4
            && var n := frame[7] / 8 * 2;
               && frame[5] >= 4 + n
               && r.antennaID == c.antennaID && r.gatewayID == c.gatewayID
               && r.epc == UpperHex(GP.WithoutPrefix(frame[9..9 + n])) && r.rssi == frame[9 + n]
  {
    hide UpperHex, GP.WithoutPrefix, GP.ParseAntennaData;
    var size: nat := frame[5];
    var info := frame[6..6 + size];
    assert |info| == size;
    AntennaDataParsed(info);
    if size >= 4 {
      var n := frame[7] / 8 * 2;
      assert info[1] == frame[7] && info[2] == frame[8];
      if size >= 4 + n {
        GP.EpcMeaning(info);
        SliceOfSlice(frame, 6, 6 + size, 3, 3 + n);
        assert info[3 + n] == frame[9 + n];
      }
    }
  }

  lemma SliceOfSlice(b: seq<byte>, i: nat, j: nat, k: nat, l: nat)
    requires i <= j <= |b| && k <= l <= j - i
    ensures b[i..j][k..l] == b[i + k..i + l]
  {
    var x, y := b[i..j][k..l], b[i + k..i + l];
    assert |x| == |y|;
    forall m | 0 <= m < |x|
      ensures x[m] == y[m]
    {
      assert x[m] == b[i..j][k + m] == b[i + k + m];
    }
  }

  lemma AntennaDataParsed(info: seq<byte>)
    ensures GP.ParseAntennaData(info).Ok? <==> |info| >= 4 && |info| >= 4 + info[1] / 8 * 2
  {
    if |info| >= 4 {
      GP.LengthBits(info[1], info[2]);
    }
  }

  /** A tag as the reader packs it: antenna, PC word, EPC and RSSI. */
  datatype GenericTag = GenericTag(antenna: byte, pcHi: byte, pcLo: byte, epc: seq<byte>, rssi: byte)

  /** The UII response that carries it, closed by the octet that makes the sum 0 mod 256. */
  function GenericBytes(t: GenericTag): (p: seq<byte>)
    requires |t.epc| == t.pcHi / 8 * 2
  {
    var open: seq<byte> := [0xCC, 0xFF, 0xFF, 0x20, 0x02, 4 + |t.epc|, t.antenna, t.pcHi, t.pcLo] + t.epc + [t.rssi];
    open + [(256 - GP.Sum(open) % 256) % 256]
  }

  function GenericTagReading(c: Config, t: GenericTag): Reading {
    Reading(c.antennaID, c.gatewayID, UpperHex(GP.WithoutPrefix(t.epc)), t.rssi)
  }

  lemma GenericTagRead(c: Config, t: GenericTag)
    requires c.hasCache && c.protocol == Generic && |t.epc| == t.pcHi / 8 * 2
    ensures GS.IsFrame(GenericBytes(t)) && ReadingsOf(c, GenericBytes(t)) == [GenericTagReading(c, t)]
  {
    var p, n := GenericBytes(t), |t.epc|;
    var open := p[..|p| - 1];
    assert p == open + [p[|p| - 1]];
    GP.SumParts(open, [p[|p| - 1]], p[|p| - 1]);
    SumCloses(GP.Sum(open), p[|p| - 1]);
    assert p[9..9 + n] == t.epc && p[9 + n] == t.rssi;
    GenericReadingSpelled(c, p, GenericTagReading(c, t));
  }

  lemma SumCloses(sum: nat, last: byte)
    requires last == (256 - sum % 256) % 256
    ensures (sum + last) % 256 == 0
  {
  }

  function GenericJoined(garbage: seq<seq<byte>>, tags: seq<GenericTag>): seq<byte>
    requires |garbage| == |tags| + 1 && forall t <- tags :: |t.epc| == t.pcHi / 8 * 2
    decreases |tags|
  {
    if tags == [] then garbage[0]
    else garbage[0] + (GenericBytes(tags[0]) + GenericJoined(garbage[1..], tags[1..]))
  }

  predicate BeginsNoPacket(g: seq<byte>) {
    forall x <- g :: x != 0x7C && x != 0xCC
  }

  /** End to end: tags packed by a generic reader, among any octets that begin no packet, become exactly their
      readings. */
  lemma {:induction false} GenericTagsBecomeReadings(c: Config, garbage: seq<seq<byte>>, tags: seq<GenericTag>)
    requires c.hasCache && c.protocol == Generic
    requires |garbage| == |tags| + 1 && forall g <- garbage :: BeginsNoPacket(g)
    requires forall t <- tags :: |t.epc| == t.pcHi / 8 * 2
    ensures |ReadingsOfStream(c, GenericJoined(garbage, tags))| == |tags|
    ensures forall i | 0 <= i < |tags| ::
              ReadingsOfStream(c, GenericJoined(garbage, tags))[i] == GenericTagReading(c, tags[i])
    decreases |tags|
  {
    hide ReadingsOf, GenericTagReading, GenericBytes, GS.Parse;
    EmptyStream(c);
    assert BeginsNoPacket(garbage[0]);
    assert GS.StartFree(garbage[0]);
    if tags == [] {
      GS.StartFreeSkipped(garbage[0], []);
      assert garbage[0] + [] == garbage[0];
    } else {
      var p, rest := GenericBytes(tags[0]), GenericJoined(garbage[1..], tags[1..]);
      GenericTagRead(c, tags[0]);
      GS.StartFreeSkipped(garbage[0], p + rest);
      GS.FrameTaken(p + rest, p);
      assert (p + rest)[|p|..] == rest;
      ReadingsOfConcat(c, [p], GS.Parse(rest).frames);
      AllOfOne(c, p);
      GenericTagsBecomeReadings(c, garbage[1..], tags[1..]);
    }
  }

  /** What of a Chainway tag a reading carries: the port's location if it has one, the hex of the EPC, and the
      magnitude of the RSSI rounded to whole dBm, or 0 when it is not between 0 and 200. */
  lemma ChainwayReadingSpelled(c: Config, t: CC.TagParts, r: Reading)
    ensures r == ChainwayReading(c, CC.TagOf(t)) <==>
            && r.gatewayID == c.gatewayID && r.epc == UpperHex(t.epc)
            && r.antennaID == (if t.antenna in c.portLocations && c.portLocations[t.antenna] != ""
                               then c.portLocations[t.antenna] else c.antennaID)
            && var tenths := 65535 - (256 * t.rssiHi + t.rssiLo);
               if 0 < tenths < 2000 then 10 * r.rssi - 5 <= tenths < 10 * r.rssi + 5 else r.rssi == 0
  {
  }

  /** A Chainway frame is a reading exactly when it is a tag notification whose payload splits into fields. */
  function ChainwayReadings(c: Config, frame: seq<byte>): seq<Reading> {
    match CF.Decode(frame)
    case Ok(f) =>
      if f.cmd == CC.CMD_TAG_NOTIFICATION && CC.Split(f.data).Some?
      then [ChainwayReading(c, CC.TagOf(CC.Split(f.data).value))]
      else []
    case Err(_) => []
  }

  function ReadingsOfAll(c: Config, frames: seq<seq<byte>>): seq<Reading> {
    if frames == [] then [] else ReadingsOfAll(c, frames[..|frames| - 1]) + ReadingsOf(c, frames[|frames| - 1])
  }

  /** The frames of a whole stream under the framing the protocol selects. */
  function FramesOf(c: Config, stream: seq<byte>): seq<seq<byte>> {
    if c.protocol == Chainway then CS.Parse(stream).frames else GS.Parse(stream).frames
  }

  function TailOf(c: Config, stream: seq<byte>): seq<byte> {
    if c.protocol == Chainway then CS.Parse(stream).tail else GS.Parse(stream).tail
  }

  lemma EmptyStream(c: Config)
    ensures FramesOf(c, []) == [] && TailOf(c, []) == []
  {
  }

  /** One read: the extractor, holding the tail of what came before, returns the frames the new octets complete. */
  lemma ReceiveStep(c: Config, before: seq<byte>, chunk: seq<byte>)
    requires |chunk| <= READ_BUFFER
    ensures c.protocol == Chainway ==>
              CS.AppendResult(TailOf(c, before), chunk, CS.DEFAULT_MAX_BUFFER) ==
              CS.Parse(TailOf(c, before) + chunk)
    ensures c.protocol != Chainway ==>
              GS.AppendResult(TailOf(c, before), chunk, GS.DEFAULT_MAX_BUFFER) ==
              GS.Parse(TailOf(c, before) + chunk)
    ensures FramesOf(c, before + chunk) == FramesOf(c, before) + FramesOf(c, TailOf(c, before) + chunk)
    ensures TailOf(c, before + chunk) == TailOf(c, TailOf(c, before) + chunk)
  {
    if c.protocol == Chainway {
      CS.AppendUncapped(CS.Parse(before).tail, chunk, CS.DEFAULT_MAX_BUFFER);
      CS.ParseResumes(before, chunk);
    } else {
      GS.ParseShape(before);
      GS.ParseResumes(before, chunk);
    }
  }

  function ReadingsOfStream(c: Config, stream: seq<byte>): seq<Reading> {
    ReadingsOfAll(c, FramesOf(c, stream))
  }

  lemma {:induction false} ReadingsOfConcat(c: Config, xs: seq<seq<byte>>, ys: seq<seq<byte>>)
    ensures ReadingsOfAll(c, xs + ys) == ReadingsOfAll(c, xs) + ReadingsOfAll(c, ys)
  {
    hide ReadingsOf;
    if ys == [] {
      assert xs + ys == xs;
    } else {
      var zs, n := xs + ys, |ys| - 1;
      assert zs[..|zs| - 1] == xs + ys[..n] && zs[|zs| - 1] == ys[n];
      ReadingsOfConcat(c, xs, ys[..n]);
      Associates(ReadingsOfAll(c, xs), ReadingsOfAll(c, ys[..n]), ReadingsOf(c, ys[n]));
    }
  }

  lemma Associates<T>(a: seq<T>, b: seq<T>, c: seq<T>)
    ensures (a + b) + c == a + (b + c)
  {
  }

  /** The whole story of a Chainway reading: an encoded notification of well-formed fields, magnitude 0..200. */
  lemma ChainwayReadingComesFromFields(c: Config, frame: seq<byte>, r: Reading)
    requires c.hasCache && c.protocol == Chainway
    ensures ReadingsOf(c, frame) == [r] <==>
            exists t: CC.TagParts ::
              && CC.WellFormed(t)
              && CF.FRAME_OVERHEAD + |CC.TagData(t)| <= CF.MAX_FRAME_LEN
              && frame == CF.FrameBytes(CC.CMD_TAG_NOTIFICATION, CC.TagData(t))
              && r == ChainwayReading(c, CC.TagOf(t))
    ensures ReadingsOf(c, frame) == [r] ==> r.rssi <= 200
  {
    if ReadingsOf(c, frame) == [r] {
      var f := CF.Decode(frame).value;
      CF.EncodeDecode(frame);
      var t := CC.Split(f.data).value;
      assert CC.WellFormed(t) && frame == CF.FrameBytes(CC.CMD_TAG_NOTIFICATION, CC.TagData(t));
    }
    forall t: CC.TagParts |
      && CC.WellFormed(t)
      && CF.FRAME_OVERHEAD + |CC.TagData(t)| <= CF.MAX_FRAME_LEN
      && frame == CF.FrameBytes(CC.CMD_TAG_NOTIFICATION, CC.TagData(t))
      && r == ChainwayReading(c, CC.TagOf(t))
      ensures ReadingsOf(c, frame) == [r]
    {
      CF.DecodeEncode(CC.CMD_TAG_NOTIFICATION, CC.TagData(t));
      CC.TagDataPartition(CC.TagData(t), t);
    }
  }

  function Notifications(tags: seq<CC.TagParts>): (messages: seq<CF.Frame>)
    ensures |messages| == |tags|
  {
    if tags == [] then []
    else [CF.Frame(CC.CMD_TAG_NOTIFICATION, CC.TagData(tags[0]))] + Notifications(tags[1..])
  }

  function TagReadings(c: Config, tags: seq<CC.TagParts>): seq<Reading> {
    if tags == [] then [] else [ChainwayReading(c, CC.TagOf(tags[0]))] + TagReadings(c, tags[1..])
  }

  predicate Sendable(t: CC.TagParts) {
    CC.WellFormed(t) && CF.FRAME_OVERHEAD + |CC.TagData(t)| <= CF.MAX_FRAME_LEN
  }

  /** End to end: notifications encoded by the reader, among any octets free of 0xA5, become exactly their readings. */
  lemma NotificationsBecomeReadings(c: Config, garbage: seq<seq<byte>>, tags: seq<CC.TagParts>)
    requires c.hasCache && c.protocol == Chainway
    requires |garbage| == |tags| + 1 && forall g <- garbage :: CF.HEADER1 !in g
    requires forall t <- tags :: Sendable(t)
    ensures forall m <- Notifications(tags) :: CF.FRAME_OVERHEAD + |m.data| <= CF.MAX_FRAME_LEN
    ensures ReadingsOfStream(c, CS.Interleave(garbage, Notifications(tags))) == TagReadings(c, tags)
  {
    NotificationsFit(tags);
    CS.EncodedFramesRecovered(garbage, Notifications(tags));
    OneReadingEach(c, tags);
  }

  lemma {:induction false} NotificationsFit(tags: seq<CC.TagParts>)
    requires forall t <- tags :: Sendable(t)
    ensures forall m <- Notifications(tags) :: CF.FRAME_OVERHEAD + |m.data| <= CF.MAX_FRAME_LEN
  {
    if tags != [] {
      assert Sendable(tags[0]);
      NotificationsFit(tags[1..]);
    }
  }

  lemma {:induction false} OneReadingEach(c: Config, tags: seq<CC.TagParts>)
    requires c.hasCache && c.protocol == Chainway
    requires forall t <- tags :: Sendable(t)
    requires forall m <- Notifications(tags) :: CF.FRAME_OVERHEAD + |m.data| <= CF.MAX_FRAME_LEN
    ensures ReadingsOfAll(c, CS.EncodeAll(Notifications(tags))) == TagReadings(c, tags)
  {
    if tags != [] {
      NotificationsFit(tags[1..]);
      assert Notifications(tags)[1..] == Notifications(tags[1..]);
      var f := CF.FrameBytes(CC.CMD_TAG_NOTIFICATION, CC.TagData(tags[0]));
      ReadingsOfConcat(c, [f], CS.EncodeAll(Notifications(tags[1..])));
      SingleReading(c, f, tags[0]);
      OneReadingEach(c, tags[1..]);
    }
  }

  lemma SingleReading(c: Config, f: seq<byte>, t: CC.TagParts)
    requires c.hasCache && c.protocol == Chainway && Sendable(t)
    requires f == CF.FrameBytes(CC.CMD_TAG_NOTIFICATION, CC.TagData(t))
    ensures ReadingsOfAll(c, [f]) == [ChainwayReading(c, CC.TagOf(t))]
  {
    var r := ChainwayReading(c, CC.TagOf(t));
    assert ReadingsOf(c, f) == [r] by {
      ChainwayReadingComesFromFields(c, f, r);
    }
    AllOfOne(c, f);
  }

  lemma AllOfOne(c: Config, f: seq<byte>)
    ensures ReadingsOfAll(c, [f]) == ReadingsOf(c, f)
  {
    assert [f][..0] == [];
  }

  /** A valid generic packet in which the reader reports an error. */
  predicate ReaderError(frame: seq<byte>) {
    && |frame| >= 7 && frame[0] in {0x7C, 0xCC} && frame[1] == frame[2] == 0xFF
    && GP.Sum(frame) % 256 == 0 && frame[4] == 0x07
  }

  /** The part of the antenna manager that turns octets into readings. */
  class AntennaPipeline {
    const config: Config
    // Whether the n-th Store call succeeds.
    const cacheAccepts: nat -> bool

    // Every reading passed to Cache.Store, in order.
    var handed: seq<Reading>
    var published: seq<Reading>
    var readingCount: nat
    var errorCount: nat

    constructor (config: Config, cacheAccepts: nat -> bool)
      ensures this.config == config && this.cacheAccepts == cacheAccepts && Consistent()
      ensures handed == [] && published == [] && readingCount == 0 && errorCount == 0
    {
      this.config, this.cacheAccepts := config, cacheAccepts;
      handed, published, readingCount, errorCount := [], [], 0, 0;
    }

    /** One event and one count per reading the cache took, in order. */
    ghost predicate Consistent()
      reads this
    {
      readingCount == |published| && published == Taken(cacheAccepts, handed)
    }

    method StoreAndPublish(r: Reading) returns (err: Option<HandlerError>)
      requires Consistent()
      modifies this
      ensures Consistent()
      ensures handed == old(handed) + [r] && errorCount == old(errorCount)
    {
      var n := |handed|;
      handed := handed + [r];
      assert handed[..n] == old(handed);
      if !cacheAccepts(n) {
        return Some(StoreFailed);
      }
      published := published + [r];
      readingCount := readingCount + 1;
      return None;
    }

    method HandleGenericFrame(frame: seq<byte>) returns (err: Option<HandlerError>)
      requires Consistent() && config.protocol == Generic
      modifies this
      ensures Consistent()
      ensures handed == old(handed) + ReadingsOf(config, frame)
      ensures errorCount == old(errorCount) + if ReaderError(frame) then 1 else 0
    {
      if |frame| < 7 {
        return Some(BadFrame);
      }
      if frame[0] != GS.PACKET_START_COMMAND && frame[0] != GS.PACKET_START_RESPONSE {
        return Some(BadFrame);
      }
      if frame[1] != GP.PACKET_PAD || frame[2] != GP.PACKET_PAD {
        return Some(BadFrame);
      }
      var ok := GP.ValidateChecksum(frame);
      if !ok {
        return None;
      }
      var cid1, rtnCode := frame[3], frame[4];
      if rtnCode == GP.RTN_UII_DATA && cid1 == GP.CID_READ_TYPE_C_UII {
        err := HandleGenericUIIData(frame);
      } else {
        if rtnCode == GP.RTN_ERROR {
          errorCount := errorCount + 1;
        }
        return None;
      }
    }

    method HandleGenericUIIData(frame: seq<byte>) returns (err: Option<HandlerError>)
      requires Consistent() && |frame| >= GS.MIN_PACKET_SIZE
      modifies this
      ensures Consistent()
      ensures handed == old(handed) + if config.hasCache && |frame| >= GS.ExpectedSize(frame)
                                      then UIIReadings(config, frame[6..GS.ExpectedSize(frame) - 1]) else []
      ensures errorCount == old(errorCount)
    {
      if !config.hasCache {
        return Some(NoCache);
      }
      var end := GS.ExpectedSize(frame) - 1;
      if |frame| < end + 1 {
        return Some(BadFrame);
      }
      var parsed := GP.ParseAntennaData(frame[6..end]);
      if parsed.Err? {
        return Some(BadFrame);
      }
      err := StoreAndPublish(Reading(config.antennaID, config.gatewayID, parsed.value.epc, parsed.value.rssi));
    }

    method HandleChainwayFrame(frame: seq<byte>) returns (err: Option<HandlerError>)
      requires Consistent() && config.protocol == Chainway
      modifies this
      ensures Consistent()
      ensures handed == old(handed) + ReadingsOf(config, frame)
      ensures errorCount == old(errorCount)
    {
      var f := CF.Decode(frame);
      if f.Err? {
        return Some(BadFrame);
      }
      if f.value.cmd != CC.CMD_TAG_NOTIFICATION {
        return None;
      }
      var tag := CC.ParseTag(f.value.data);
      if tag.None? {
        return Some(BadFrame);
      }
      if !config.hasCache {
        return Some(NoCache);
      }
      err := StoreAndPublish(ChainwayReading(config, tag.value));
    }

    method HandlePacket(data: seq<byte>) returns (err: Option<HandlerError>)
      requires Consistent()
      modifies this
      ensures Consistent()
      ensures handed == old(handed) + ReadingsOf(config, data)
      ensures errorCount == old(errorCount) + if config.protocol == Generic && ReaderError(data) then 1 else 0
    {
      match config.protocol
      case Unsupported => err := Some(UnsupportedProtocol);
      case Chainway => err := HandleChainwayFrame(data);
      case Generic => err := HandleGenericFrame(data);
    }

    /** The read loop over the chunks a connection delivers: the readings depend on their concatenation alone. */
    method DataReader(chunks: seq<seq<byte>>)
      requires Consistent()
      requires forall c <- chunks :: |c| <= READ_BUFFER
      modifies this
      ensures Consistent()
      ensures handed == old(handed) + ReadingsOfStream(config, Concat(chunks))
    {
      hide ReadingsOf, CS.Parse, GS.Parse, CS.Capped, GS.Capped;
      var chainway := new CS.StreamExtractor.WithMaxBuffer(0);
      var generic := new GS.StreamExtractor.WithMaxBuffer(0);
      ghost var seen: seq<byte> := [];
      assert chunks[..0] == [];
      EmptyStream(config);
      for i := 0 to |chunks|
        invariant Consistent() && chainway.Valid() && generic.Valid() && fresh(chainway) && fresh(generic)
        invariant chainway.maxBuffer == CS.DEFAULT_MAX_BUFFER && generic.maxBuffer == GS.DEFAULT_MAX_BUFFER
        invariant seen + Concat(chunks[i..]) == Concat(chunks)
        invariant handed == old(handed) + ReadingsOfStream(config, seen)
        invariant TailOf(config, seen) == if config.protocol == Chainway then chainway.buffer else generic.buffer
      {
        ghost var before := seen;
        seen := seen + chunks[i];
        assert chunks[i..][1..] == chunks[i + 1..];
        ConcatFirst(before, chunks[i..]);
        if |chunks[i]| == 0 {
          assert seen == before;
          continue;
        }
        ReceiveStep(config, before, chunks[i]);
        var frames;
        if config.protocol == Chainway {
          frames := chainway.Append(chunks[i]);
        } else {
          frames := generic.Append(chunks[i]);
        }
        ReadingsOfConcat(config, FramesOf(config, before), frames);
        HandleAll(frames);
        Associates(old(handed), ReadingsOfStream(config, before), ReadingsOfAll(config, frames));
      }
      assert chunks[|chunks|..] == [];
      assert seen + [] == seen;
    }

    method HandleAll(frames: seq<seq<byte>>)
      requires Consistent()
      modifies this
      ensures Consistent()
      ensures handed == old(handed) + ReadingsOfAll(config, frames)
    {
      for k := 0 to |frames|
        invariant Consistent()
        invariant handed == old(handed) + ReadingsOfAll(config, frames[..k])
      {
        assert frames[..k + 1][..k] == frames[..k];
        var _ := HandlePacket(frames[k]);
      }
      assert frames[..|frames|] == frames;
    }
  }

  /** The readings the cache accepted, given which Store calls succeed. */
  function Taken(accepts: nat -> bool, handed: seq<Reading>): seq<Reading> {
    if handed == [] then []
    else
      var n := |handed| - 1;
      Taken(accepts, handed[..n]) + if accepts(n) then [handed[n]] else []
  }
}
