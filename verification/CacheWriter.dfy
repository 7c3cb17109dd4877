/** The buffered writer of the reading cache: a bounded channel, a batch, and the rows of the table. Each method is one
    step of the writer's select loop or one call made beside it; database faults are not modelled. */
module CacheWriter {

  const BATCH_SIZE := 100

  datatype Reading = Reading(antennaID: string, gatewayID: string, epc: string, rssi: int, timestamp: nat)

  predicate Acceptable(r: Reading) {
    r.antennaID != "" && r.epc != "" && r.rssi >= 0 && r.timestamp != 0
  }

  /** One step of a whole history: a Store, a turn of the writer's select loop, or a Flush that it serves while the
      given Store calls arrive. */
  datatype Action =
    | Put(reading: Reading)
    | Take
    | Tick
    | ServeFlush(arrivals: seq<seq<Reading>>)
    | BeginClose
    | WriterExits

  /** The readings whose Store call succeeded. */
  function Accepted(rs: seq<Reading>, oks: seq<bool>): seq<Reading>
    requires |rs| == |oks|
  {
    if rs == [] then []
    else
      var n := |rs| - 1;
      Accepted(rs[..n], oks[..n]) + if oks[n] then [rs[n]] else []
  }

  function ClosedAfter(closed: bool, schedule: seq<Action>): bool {
    closed || BeginClose in schedule
  }

  /** The writer exits at its first turn to do so after the close. */
  function ExitedAfter(closed: bool, exited: bool, schedule: seq<Action>): bool {
    if schedule == [] then exited
    else
      var n := |schedule| - 1;
      ExitedAfter(closed, exited, schedule[..n]) || (schedule[n] == WriterExits && ClosedAfter(closed, schedule[..n]))
  }

  lemma AfterNone(closed: bool, exited: bool, schedule: seq<Action>)
    ensures ClosedAfter(closed, schedule[..0]) == closed && ExitedAfter(closed, exited, schedule[..0]) == exited
  {
  }

  lemma AfterOneMore(closed: bool, exited: bool, schedule: seq<Action>, i: nat)
    requires i < |schedule|
    ensures ClosedAfter(closed, schedule[..i + 1]) <==> ClosedAfter(closed, schedule[..i]) || schedule[i].BeginClose?
    ensures ExitedAfter(closed, exited, schedule[..i + 1]) <==>
            ExitedAfter(closed, exited, schedule[..i]) ||
            (schedule[i].WriterExits? && ClosedAfter(closed, schedule[..i]))
  {
    assert schedule[..i + 1] == schedule[..i] + [schedule[i]] && schedule[..i + 1][..i] == schedule[..i];
  }

  /** What the Store calls of a schedule offer before Close, bad readings left out. */
  function Offered(closed: bool, schedule: seq<Action>): seq<Reading> {
    if schedule == [] then []
    else
      var n := |schedule| - 1;
      Offered(closed, schedule[..n]) +
      match schedule[n]
      case Put(r) =>
        if !ClosedAfter(closed, schedule[..n]) && r.antennaID != "" && r.epc != "" && r.rssi >= 0 && r.timestamp != 0
        then [r] else []
      case _ => []
  }

  lemma NothingOffered(closed: bool, schedule: seq<Action>)
    ensures Offered(closed, schedule[..0]) == []
  {
  }

  lemma OneMoreOffered(closed: bool, schedule: seq<Action>, i: nat)
    requires i < |schedule|
    ensures Offered(closed, schedule[..i + 1]) ==
            Offered(closed, schedule[..i]) +
            match schedule[i]
            case Put(r) =>
              if !ClosedAfter(closed, schedule[..i])
                 && r.antennaID != "" && r.epc != "" && r.rssi >= 0 && r.timestamp != 0
              then [r] else []
            case _ => []
  {
    assert schedule[..i + 1][..i] == schedule[..i];
  }

  lemma NoneAccepted(closed: bool, queued: nat, bufferSize: nat, rs: seq<Reading>)
    ensures rs[..0] == [] && Accepted([], []) == [] && Answered(closed, queued, bufferSize, rs, [])
  {
  }

  lemma Joined(a: seq<Reading>, b: seq<Reading>, c: seq<Reading>)
    ensures (a + b) + c == a + (b + c)
  {
  }

  lemma AcceptedSnoc(rs: seq<Reading>, oks: seq<bool>, i: nat, ok: bool)
    requires i == |oks| < |rs|
    ensures Accepted(rs[..i + 1], oks + [ok]) == Accepted(rs[..i], oks) + if ok then [rs[i]] else []
  {
    assert rs[..i + 1][..i] == rs[..i] && (oks + [ok])[..i] == oks;
  }

  /** Each answer of Store calls in a row is what the cache's state and the readings accepted before it call for. */
  predicate Answered(closed: bool, queued: nat, bufferSize: nat, rs: seq<Reading>, oks: seq<bool>)
    requires |oks| <= |rs|
  {
    forall i | 0 <= i < |oks| ::
      oks[i] <==> && !closed && queued + |Accepted(rs[..i], oks[..i])| < bufferSize
                  && rs[i].antennaID != "" && rs[i].epc != "" && rs[i].rssi >= 0 && rs[i].timestamp != 0
  }

  lemma AnsweredSnoc(closed: bool, queued: nat, bufferSize: nat, rs: seq<Reading>, oks: seq<bool>, ok: bool)
    requires |oks| < |rs| && Answered(closed, queued, bufferSize, rs, oks)
    requires var r := rs[|oks|];
             ok <==> && !closed && queued + |Accepted(rs[..|oks|], oks)| < bufferSize
                     && r.antennaID != "" && r.epc != "" && r.rssi >= 0 && r.timestamp != 0
    ensures Answered(closed, queued, bufferSize, rs, oks + [ok])
  {
    hide Accepted;
    var more := oks + [ok];
    assert more[..|oks|] == oks;
    forall i | 0 <= i < |oks|
      ensures more[..i] == oks[..i] && more[i] == oks[i]
    {
    }
  }

  class Cache {
    const bufferSize: nat
    var channel: seq<Reading>
    var batch: seq<Reading>
    var rows: seq<Reading>
    // Set by Close; the writer notices later.
    var closed: bool
    var exited: bool
    // Every reading a Store call accepted, in order.
    ghost var accepted: seq<Reading>

    /** Nothing is lost, invented or reordered between acceptance and the table. */
    ghost predicate Valid()
      reads this
    {
      rows + batch + channel == accepted && |batch| < BATCH_SIZE && |channel| <= bufferSize
      && (exited ==> closed && batch == [])
    }

    constructor (bufferSize: nat)
      ensures Valid() && accepted == [] && !closed && !exited && this.bufferSize == bufferSize
    {
      this.bufferSize := bufferSize;
      channel, batch, rows, closed, exited, accepted := [], [], [], false, false, [];
    }

    /** Store: a closed cache, a bad reading and a full buffer are refused; anything else is queued. */
    method Store(r: Reading) returns (ok: bool)
      requires Valid()
      modifies this`channel, this`accepted
      ensures Valid()
      ensures ok <==> && !closed && |old(channel)| < bufferSize
                      && r.antennaID != "" && r.epc != "" && r.rssi >= 0 && r.timestamp != 0
      ensures channel == if ok then old(channel) + [r] else old(channel)
      ensures accepted == if ok then old(accepted) + [r] else old(accepted)
    {
      if closed || !Acceptable(r) || |channel| >= bufferSize {
        return false;
      }
      channel, accepted := channel + [r], accepted + [r];
      return true;
    }

    /** flush, without database faults: the batch becomes rows, in order, and is emptied. */
    method FlushBatch()
      requires rows + batch + channel == accepted && |batch| <= BATCH_SIZE && |channel| <= bufferSize && !exited
      modifies this`rows, this`batch
      ensures Valid() && batch == [] && rows == old(rows + batch)
    {
      var readings := batch;
      for i := 0 to |readings|
        invariant rows == old(rows) + readings[..i] && batch == readings
        invariant rows + readings[i..] + channel == accepted
      {
        rows := rows + [readings[i]];
      }
      batch := [];
    }

    /** The writer receives one reading, and flushes when the batch is full. */
    method TakeReading()
      requires Valid() && !exited && channel != []
      modifies this`channel, this`batch, this`rows
      ensures Valid() && channel == old(channel)[1..]
      ensures old(rows) <= rows && rows + batch == old(rows + batch) + [old(channel)[0]]
      ensures if |old(batch)| < 99 then rows == old(rows) else batch == []
    {
      assert channel == [channel[0]] + channel[1..];
      batch, channel := batch + [channel[0]], channel[1..];
      if |batch| >= BATCH_SIZE {
        FlushBatch();
      }
    }

    /** The ticker: a non-empty batch is flushed. */
    method Periodic()
      requires Valid() && !exited
      modifies this`batch, this`rows
      ensures Valid() && batch == [] && rows == old(rows + batch)
    {
      if |batch| > 0 {
        FlushBatch();
      }
    }

    /** Store calls in a row, with no turn of the writer between them: each is accepted exactly while the cache is
        open and has room, if its reading is valid, and those that were are queued in order. */
    method StoreAll(rs: seq<Reading>) returns (oks: seq<bool>)
      requires Valid()
      modifies this`channel, this`accepted
      ensures Valid() && |oks| == |rs| && accepted == old(accepted) + Accepted(rs, oks)
      ensures channel == old(channel) + Accepted(rs, oks)
      ensures Answered(closed, |old(channel)|, bufferSize, rs, oks)
    {
      hide Accepted, Answered;
      oks := [];
      NoneAccepted(closed, |channel|, bufferSize, rs);
      for i := 0 to |rs|
        invariant Valid() && |oks| == i && accepted == old(accepted) + Accepted(rs[..i], oks)
        invariant channel == old(channel) + Accepted(rs[..i], oks)
        invariant Answered(closed, |old(channel)|, bufferSize, rs, oks)
      {
        var ok := StoreNext(rs[i], rs, oks, old(accepted), old(channel));
        oks := oks + [ok];
      }
      assert rs[..|rs|] == rs;
    }

    /** One of them: the answers given so far are `oks`. */
    method StoreNext(r: Reading, ghost rs: seq<Reading>, ghost oks: seq<bool>, ghost accepted0: seq<Reading>,
                     ghost channel0: seq<Reading>)
      returns (ok: bool)
      requires Valid() && |oks| < |rs| && r == rs[|oks|] && accepted == accepted0 + Accepted(rs[..|oks|], oks)
      requires channel == channel0 + Accepted(rs[..|oks|], oks)
      requires Answered(closed, |channel0|, bufferSize, rs, oks)
      modifies this`channel, this`accepted
      ensures Valid() && accepted == accepted0 + Accepted(rs[..|oks| + 1], oks + [ok])
      ensures channel == channel0 + Accepted(rs[..|oks| + 1], oks + [ok])
      ensures Answered(closed, |channel0|, bufferSize, rs, oks + [ok])
    {
      hide Accepted, Answered;
      ghost var before := Accepted(rs[..|oks|], oks);
      ok := Store(r);
      AcceptedSnoc(rs, oks, |oks|, ok);
      if ok {
        Joined(accepted0, before, [r]);
        Joined(channel0, before, [r]);
      }
      AnsweredSnoc(closed, |channel0|, bufferSize, rs, oks, ok);
    }

    /** The flush request: drain the channel, flushing full batches, while other Store calls keep arriving; then flush
        the rest and acknowledge. Everything accepted before the request is in the table, in order and once. */
    method DrainAndFlush(arrivals: seq<seq<Reading>>)
      requires Valid() && !exited
      modifies this`channel, this`batch, this`rows, this`accepted
      ensures Valid() && batch == []
      ensures old(rows) <= rows && old(accepted) <= accepted
      ensures old(accepted) <= rows && (arrivals == [] ==> accepted == old(accepted) == rows)
    {
      ghost var asked := accepted;
      var turn, drained := 0, false;
      while !drained
        invariant Valid() && turn <= |arrivals|
        invariant asked <= accepted && old(rows) <= rows && (arrivals == [] ==> accepted == asked)
        invariant drained ==> asked <= rows + batch
        decreases !drained, |arrivals| - turn, |channel|
      {
        if channel != [] {
          TakeReading();
        } else {
          assert rows + batch == accepted;
          drained := true;
        }
        if turn < |arrivals| {
          var _ := StoreAll(arrivals[turn]);
          turn := turn + 1;
        }
      }
      Periodic();
    }

    /** Close: further Store and Flush calls are refused; a second Close does nothing. */
    method BeginClose()
      requires Valid()
      modifies this`closed
      ensures Valid() && closed
    {
      closed := true;
    }

    /** The writer's last turn: the batch is flushed, what is still in the channel is not. */
    method WriterExits()
      requires Valid() && closed && !exited
      modifies this`batch, this`rows, this`exited
      ensures Valid() && exited && rows == old(rows + batch)
      ensures rows <= accepted && accepted == rows + channel
    {
      Periodic();
      exited := true;
    }

    /** One call or writer turn; a turn that is not enabled is skipped. */
    method Turn(action: Action) returns (served: bool)
      requires Valid()
      modifies this
      ensures Valid() && old(rows) <= rows && old(accepted) <= accepted
      ensures closed <==> old(closed) || action.BeginClose?
      ensures exited <==> old(exited) || (action.WriterExits? && old(closed))
      ensures served <==> action.ServeFlush? && !old(exited)
      ensures served ==> old(accepted) <= rows
      ensures match action
              case Put(r) =>
                && rows == old(rows) && batch == old(batch)
                && accepted == old(accepted) +
                               if !old(closed) && |old(channel)| < bufferSize && r.antennaID != "" && r.epc != ""
                                  && r.rssi >= 0 && r.timestamp != 0 then [r] else []
              case Take =>
                && accepted == old(accepted)
                && channel == if old(exited) || old(channel) == [] then old(channel) else old(channel)[1..]
              case Tick => accepted == old(accepted) && channel == old(channel) && (!exited ==> batch == [])
              case ServeFlush(arrivals) =>
                && (arrivals == [] ==> accepted == old(accepted))
                && (old(exited) ==> accepted == old(accepted))
                && (served && arrivals == [] ==> channel == [])
              case _ => accepted == old(accepted) && channel == old(channel)
    {
      served := false;
      match action
      case Put(r) => var _ := Store(r);
      case Take => if !exited && channel != [] { TakeReading(); }
      case Tick => if !exited { Periodic(); }
      case ServeFlush(arrivals) =>
        if !exited {
          DrainAndFlush(arrivals);
          served := true;
        }
      case BeginClose => BeginClose();
      case WriterExits => if closed && !exited { WriterExits(); }
    }

    /** Any schedule of calls and writer turns. A flush request that came before Close may still be served after it,
        until the writer exits. Rows only grow, what was accepted at any moment never changes place, and a flush
        served anywhere in the schedule has stored all that was accepted before it. */
    method Run(schedule: seq<Action>) returns (served: bool)
      requires Valid()
      modifies this
      ensures Valid() && old(rows) <= rows && old(accepted) <= accepted
      ensures exited ==> rows <= accepted
      ensures served ==> old(accepted) <= rows
      ensures closed == ClosedAfter(old(closed), schedule) && exited == ExitedAfter(old(closed), old(exited), schedule)
      // Exactly the requests that meet a writer still running are served.
      ensures served <==> exists k | 0 <= k < |schedule| ::
                schedule[k].ServeFlush? && !ExitedAfter(old(closed), old(exited), schedule[..k])
      // With room for all calls, every good reading offered before Close is accepted.
      ensures |old(channel)| + |schedule| <= bufferSize && (forall a <- schedule :: a.ServeFlush? ==> a.arrivals == [])
              ==> accepted == old(accepted) + Offered(old(closed), schedule)
    {
      hide ClosedAfter, ExitedAfter, Offered;
      AfterNone(old(closed), old(exited), schedule);
      NothingOffered(old(closed), schedule);
      ghost var quiet :=
        |old(channel)| + |schedule| <= bufferSize && forall a <- schedule :: a.ServeFlush? ==> a.arrivals == [];
      served := false;
      for i := 0 to |schedule|
        invariant Valid() && old(rows) <= rows && old(accepted) <= accepted
        invariant served ==> old(accepted) <= rows
        invariant closed == ClosedAfter(old(closed), schedule[..i])
        invariant exited == ExitedAfter(old(closed), old(exited), schedule[..i])
        invariant served <==> exists k | 0 <= k < i ::
                    schedule[k].ServeFlush? && !ExitedAfter(old(closed), old(exited), schedule[..k])
        invariant quiet ==> |channel| <= |old(channel)| + i
        invariant quiet ==> accepted == old(accepted) + Offered(old(closed), schedule[..i])
      {
        AfterOneMore(old(closed), old(exited), schedule, i);
        OneMoreOffered(old(closed), schedule, i);
        assert schedule[i] in schedule;
        var now := Turn(schedule[i]);
        served := served || now;
      }
      assert schedule[..|schedule|] == schedule;
    }
  }
}
