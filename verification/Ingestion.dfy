/** From the octets of one connection to the rows of the cache: the readings the pipeline publishes are those stored. */
module Ingestion {
  import opened Bytes
  import R = Readings
  import CW = CacheWriter

  /** A turn of the cache's writer between two readings. */
  datatype Turn = Take | Tick

  /** Reading for reading the same, timestamps aside. */
  predicate Same(stored: seq<CW.Reading>, rs: seq<R.Reading>) {
    && |stored| == |rs|
    && forall i | 0 <= i < |rs| ::
         && stored[i].antennaID == rs[i].antennaID && stored[i].gatewayID == rs[i].gatewayID
         && stored[i].epc == rs[i].epc && stored[i].rssi == rs[i].rssi
  }

  function Answers(oks: seq<bool>): nat -> bool {
    (n: nat) => n < |oks| && oks[n]
  }

  lemma {:induction false} TakenByAnswers(oks: seq<bool>, ok: bool, rs: seq<R.Reading>)
    requires |rs| <= |oks|
    ensures R.Taken(Answers(oks + [ok]), rs) == R.Taken(Answers(oks), rs)
  {
    if rs != [] {
      TakenByAnswers(oks, ok, rs[..|rs| - 1]);
    }
  }

  lemma TakenOnceMore(oks: seq<bool>, ok: bool, rs: seq<R.Reading>, i: nat)
    requires i == |oks| < |rs|
    ensures R.Taken(Answers(oks + [ok]), rs[..i + 1]) == R.Taken(Answers(oks), rs[..i]) + if ok then [rs[i]] else []
  {
    assert rs[..i + 1][..i] == rs[..i];
    TakenByAnswers(oks, ok, rs[..i]);
  }

  method TakeTurns(cache: CW.Cache, turns: seq<Turn>)
    requires cache.Valid() && !cache.exited
    modifies cache`channel, cache`batch, cache`rows
    ensures cache.Valid() && old(cache.rows) <= cache.rows && |cache.channel| <= |old(cache.channel)|
  {
    for k := 0 to |turns|
      invariant cache.Valid() && old(cache.rows) <= cache.rows && |cache.channel| <= |old(cache.channel)|
    {
      match turns[k]
      case Take => if cache.channel != [] { cache.TakeReading(); }
      case Tick => cache.Periodic();
    }
  }

  /** Offers readings to the cache in order, stamped, while the writer takes its turns. */
  method StoreReadings(rs: seq<R.Reading>, cache: CW.Cache, clock: nat -> nat, turns: nat -> seq<Turn>)
    returns (oks: seq<bool>)
    requires cache.Valid() && !cache.exited
    modifies cache`channel, cache`batch, cache`rows, cache`accepted
    ensures cache.Valid() && |oks| == |rs| && old(cache.accepted) <= cache.accepted
    ensures Same(cache.accepted[|old(cache.accepted)|..], R.Taken(Answers(oks), rs))
    ensures forall i | 0 <= i < |oks| && oks[i] ::
              rs[i].antennaID != "" && rs[i].epc != "" && clock(i) != 0 && !cache.closed
    ensures !cache.closed && |old(cache.channel)| + |rs| <= cache.bufferSize ==>
              forall i | 0 <= i < |oks| && rs[i].antennaID != "" && rs[i].epc != "" && clock(i) != 0 :: oks[i]
  {
    ghost var stored: seq<CW.Reading> := [];
    oks := [];
    hide Answers;
    assert R.Taken(Answers(oks), rs[..0]) == [];
    hide R.Taken;
    for i := 0 to |rs|
      invariant cache.Valid() && |oks| == i
      invariant cache.accepted == old(cache.accepted) + stored
      invariant Same(stored, R.Taken(Answers(oks), rs[..i]))
      invariant |cache.channel| <= |old(cache.channel)| + i
      invariant forall k | 0 <= k < i && oks[k] ::
                  rs[k].antennaID != "" && rs[k].epc != "" && clock(k) != 0 && !cache.closed
      invariant !cache.closed && |old(cache.channel)| + |rs| <= cache.bufferSize ==>
                  forall k | 0 <= k < i && rs[k].antennaID != "" && rs[k].epc != "" && clock(k) != 0 :: oks[k]
    {
      TakeTurns(cache, turns(i));
      var reading := CW.Reading(rs[i].antennaID, rs[i].gatewayID, rs[i].epc, rs[i].rssi, clock(i));
      var ok := cache.Store(reading);
      TakenOnceMore(oks, ok, rs, i);
      stored := stored + if ok then [reading] else [];
      oks := oks + [ok];
    }
    assert rs[..|rs|] == rs;
  }

  /** The readings of a stream go to the cache, and the pipeline gets the cache's answers. After a flush the rows end
      with exactly what the pipeline published: the readings of the stream, however it was cut, less those refused. */
  method Ingest(config: R.Config, chunks: seq<seq<byte>>, cache: CW.Cache, clock: nat -> nat, turns: nat -> seq<Turn>)
    returns (pipeline: R.AntennaPipeline, oks: seq<bool>)
    requires cache.Valid() && !cache.exited
    requires forall c <- chunks :: |c| <= R.READ_BUFFER
    modifies cache
    ensures fresh(pipeline) && cache.Valid()
    ensures pipeline.handed == R.ReadingsOfStream(config, Concat(chunks)) && |oks| == |pipeline.handed|
    ensures pipeline.published == R.Taken(Answers(oks), pipeline.handed)
    ensures forall i | 0 <= i < |oks| && oks[i] ::
              !cache.closed && pipeline.handed[i].antennaID != "" && pipeline.handed[i].epc != "" && clock(i) != 0
    // With room for all of them, exactly the readings that can be stored are.
    ensures !cache.closed && |old(cache.channel)| + |pipeline.handed| <= cache.bufferSize ==>
              forall i | 0 <= i < |oks| ::
                oks[i] <==> pipeline.handed[i].antennaID != "" && pipeline.handed[i].epc != "" && clock(i) != 0
    ensures old(cache.accepted) <= cache.accepted == cache.rows
    ensures Same(cache.rows[|old(cache.accepted)|..], pipeline.published)
  {
    hide R.ReadingsOfStream, R.Taken, Same, Answers;
    var rs := R.ReadingsOfStream(config, Concat(chunks));
    oks := StoreReadings(rs, cache, clock, turns);
    cache.DrainAndFlush([]);
    pipeline := new R.AntennaPipeline(config, Answers(oks));
    pipeline.DataReader(chunks);
    assert [] + rs == rs;
  }
}
