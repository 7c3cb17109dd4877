/** The capped queue of pending confirmations and the flush that sends them, with creations arriving between its sends.
    Table operations are atomic; database faults are not modelled. Row ids are never reused. */
module ConfirmationQueue {

  const MAX_RETRIES := 10
  const FLUSH_LIMIT := 100

  datatype Row = Row(uii: string, createdAt: int, synced: bool, retryCount: nat)

  /** A row as GetUnsyncedConfirmations copied it. */
  datatype Confirmation = Confirmation(id: nat, uii: string, createdAt: int, retryCount: nat)

  type Table = map<nat, Row>

  function Unsynced(t: Table): (ids: set<nat>)
    ensures ids <= t.Keys && forall id :: id in ids <==> id in t && !t[id].synced
  {
    set id | id in t && !t[id].synced
  }

  function Copy(t: Table, id: nat): Confirmation
    requires id in t
  {
    Confirmation(id, t[id].uii, t[id].createdAt, t[id].retryCount)
  }

  predicate Oldest(t: Table, ids: set<nat>, id: nat)
    requires ids <= t.Keys
  {
    id in ids && forall other <- ids :: t[id].createdAt <= t[other].createdAt
  }

  lemma {:induction false} OldestExists(t: Table, ids: set<nat>) returns (id: nat)
    requires ids <= t.Keys && ids != {}
    ensures Oldest(t, ids, id)
    decreases |ids|
  {
    id :| id in ids;
    if ids != {id} {
      var rest := ids - {id};
      assert ids == rest + {id};
      var best := OldestExists(t, rest);
      if t[best].createdAt < t[id].createdAt {
        id := best;
      }
    }
  }

  // ---- What the flush sees -----------------------------------------------------------------

  function Ids(confs: seq<Confirmation>): set<nat> {
    set c | c in confs :: c.id
  }

  /** The query's answer: up to `limit` distinct unsynced rows in creation order, none older left out. */
  predicate IsSnapshot(t: Table, confs: seq<Confirmation>, limit: nat) {
    && |confs| <= limit && (|confs| < limit ==> Unsynced(t) <= Ids(confs))
    && (forall i | 0 <= i < |confs| :: confs[i].id in Unsynced(t) && confs[i] == Copy(t, confs[i].id))
    && (forall i, j | 0 <= i < j < |confs| :: confs[i].id != confs[j].id && confs[i].createdAt <= confs[j].createdAt)
    && (forall i, id | 0 <= i < |confs| && id in Unsynced(t) - Ids(confs) :: confs[i].createdAt <= t[id].createdAt)
  }

  lemma {:induction false} DistinctIds(confs: seq<Confirmation>)
    requires forall i, j | 0 <= i < j < |confs| :: confs[i].id != confs[j].id
    ensures |Ids(confs)| == |confs|
  {
    if confs == [] {
      assert Ids(confs) == {};
    } else {
      var n := |confs| - 1;
      DistinctIds(confs[..n]);
      assert Ids(confs) == Ids(confs[..n]) + {confs[n].id};
    }
  }

  function Older(t: Table, id: nat): set<nat>
    requires id in t
  {
    set x | x in Unsynced(t) && t[x].createdAt < t[id].createdAt
  }

  /** The other rows that may be answered before `id`; rows of equal age come in either order. */
  function NotNewer(t: Table, id: nat): set<nat>
    requires id in t
  {
    set x | x in Unsynced(t) && x != id && t[x].createdAt <= t[id].createdAt
  }

  /** An unsynced row is answered when fewer than `limit` others may come before it, and is not when `limit` must. */
  lemma ReachedByAge(t: Table, confs: seq<Confirmation>, limit: nat, id: nat)
    requires IsSnapshot(t, confs, limit) && id in Unsynced(t)
    ensures |NotNewer(t, id)| < limit ==> id in Ids(confs)
    ensures |Older(t, id)| >= limit ==> id !in Ids(confs)
  {
    DistinctIds(confs);
    if id in Ids(confs) {
      assert Older(t, id) + {id} <= Ids(confs);
      Larger(Older(t, id) + {id}, Ids(confs));
    } else {
      assert Ids(confs) <= NotNewer(t, id);
      Larger(Ids(confs), NotNewer(t, id));
    }
  }

  lemma {:induction false} Larger(a: set<nat>, b: set<nat>)
    requires a <= b
    ensures |a| <= |b|
    decreases |a|
  {
    if a != {} {
      var x :| x in a;
      Larger(a - {x}, b - {x});
    }
  }

  lemma FewerUnsynced(t: Table, t': Table)
    requires forall id <- t' :: id in t && (t[id].synced ==> t'[id].synced)
    ensures |Unsynced(t')| <= |Unsynced(t)|
  {
    Larger(Unsynced(t'), Unsynced(t));
  }

  // ---- The ledger --------------------------------------------------------------------------

  /** Per id ever created, in order: how often it was sent, and how often successfully; and which rows were evicted. */
  datatype Ledger = Ledger(sends: seq<nat>, successes: seq<nat>, evicted: set<nat>)

  /** Every created row is in the table or was evicted; a row is sent at most ten times and delivered at most once; in
      the table its retry count and synced flag say exactly that, and an exhausted row is never marked synced. */
  ghost predicate Reckoned(t: Table, l: Ledger) {
    && |l.sends| == |l.successes| && t.Keys !! l.evicted
    && (forall id <- t :: id < |l.sends|) && (forall id <- l.evicted :: id < |l.sends|)
    && (forall id | 0 <= id < |l.sends| :: id in t || id in l.evicted)
    && (forall id | 0 <= id < |l.sends| :: l.sends[id] <= MAX_RETRIES && l.successes[id] <= 1)
    && (forall id <- t :: RowReckoned(t[id], l.sends[id], l.successes[id]))
  }

  predicate RowReckoned(r: Row, sends: nat, successes: nat) {
    && r.retryCount <= MAX_RETRIES && (r.synced ==> r.retryCount < MAX_RETRIES)
    && sends == r.retryCount + (if r.synced then 1 else 0)
    && successes == if r.synced then 1 else 0
  }

  /** A snapshot entry not yet dealt with: if its row is still there it is unsynced and unchanged, and in any case it
      has been sent as often as the copy says, never successfully. */
  ghost predicate Untouched(t: Table, l: Ledger, c: Confirmation) {
    && c.id < |l.sends| && c.id < |l.successes| && l.sends[c.id] == c.retryCount && l.successes[c.id] == 0
    && (c.id in t ==> !t[c.id].synced && t[c.id].retryCount == c.retryCount)
  }

  /** Rows evicted by `n` creations on a queue of `unsynced` rows under this cap. */
  function Evictions(unsynced: nat, cap: int, n: nat): nat {
    if cap <= 0 || n <= cap - unsynced then 0 else if unsynced >= cap then n else n - (cap - unsynced)
  }

  /** At the cap a creation evicts one row and below it none, and sends only ever make room: so evictions stay
      within what the creations alone would have brought. */
  ghost predicate Evicting(t0: Table, l0: Ledger, t: Table, l: Ledger, cap: nat) {
    && |l0.sends| <= |l.sends| && l0.evicted <= l.evicted
    && |l.evicted| + |Unsynced(t)| <= |l0.evicted| + |Unsynced(t0)| + |l.sends| - |l0.sends|
    && |l.evicted| - |l0.evicted| <= Evictions(|Unsynced(t0)|, cap, |l.sends| - |l0.sends|)
  }

  lemma EvictingOnce(t: Table, l: Ledger, gone: set<nat>, id: nat, t': Table, l': Ledger, cap: nat)
    requires cap > 0 && gone <= Unsynced(t) && t.Keys !! l.evicted && id !in t
    requires Unsynced(t') == Unsynced(t) - gone + {id}
    requires l' == Ledger(l.sends + [0], l.successes + [0], l.evicted + gone)
    requires if cap <= |Unsynced(t)| then exists victim :: gone == {victim} else gone == {}
    ensures Evicting(t, l, t', l', cap)
  {
    assert |l'.evicted| == |l.evicted| + |gone|;
    assert |Unsynced(t')| == |Unsynced(t)| - |gone| + 1;
  }

  lemma EvictionsWithin(unsynced: nat, cap: nat, m: nat, e: nat, left: nat, n: nat)
    requires e <= Evictions(unsynced, cap, m) && e + left <= unsynced + m
    ensures e + Evictions(left, cap, n) <= Evictions(unsynced, cap, m + n)
  {
  }

  lemma EvictingThen(t0: Table, l0: Ledger, t: Table, l: Ledger, t': Table, l': Ledger, cap: nat)
    requires Evicting(t0, l0, t, l, cap) && Evicting(t, l, t', l', cap)
    ensures Evicting(t0, l0, t', l', cap)
  {
    hide Unsynced;
    Larger(l0.evicted, l.evicted);
    EvictionsWithin(|Unsynced(t0)|, cap, |l.sends| - |l0.sends|, |l.evicted| - |l0.evicted|, |Unsynced(t)|,
                    |l'.sends| - |l.sends|);
  }

  lemma EvictedApart(t: Table, l: Ledger)
    requires Reckoned(t, l)
    ensures t.Keys !! l.evicted
  {
  }

  lemma EvictingSend(t: Table, l: Ledger, t': Table, l': Ledger, cap: nat)
    requires |l'.sends| == |l.sends| && l'.evicted == l.evicted && |Unsynced(t')| <= |Unsynced(t)|
    ensures Evicting(t, l, t', l', cap)
  {
  }

  /** A confirmation as the web handler submits it. */
  datatype Submission = Submission(uii: string, now: int, maxPending: int)

  function Max(a: int, b: int): int { if a < b then b else a }

  class LocalStore {
    var table: Table
    ghost var ledger: Ledger
    // One more than the largest id ever used.
    var nextId: nat

    ghost predicate Valid()
      reads this
    {
      Reckoned(table, ledger) && |ledger.sends| == |ledger.successes| == nextId
    }

    constructor ()
      ensures Valid() && table == map[] && nextId == 0
    {
      table, nextId, ledger := map[], 0, Ledger([], [], {});
    }

    /** Deletes an oldest unsynced row. */
    method Evict() returns (ghost victim: nat)
      requires Valid() && Unsynced(table) != {}
      modifies this`table, this`ledger
      ensures Valid() && Oldest(old(table), Unsynced(old(table)), victim)
      ensures table == old(table) - {victim} && Unsynced(table) == Unsynced(old(table)) - {victim}
      ensures ledger == old(ledger).(evicted := old(ledger).evicted + {victim})
    {
      var unsynced := Unsynced(table);
      var _ := OldestExists(table, unsynced);
      var v: nat :| Oldest(table, unsynced, v);
      assert Oldest(table, unsynced, v);
      assert v in unsynced && v in table;
      victim := v;
      table := table - {v};
      ledger := ledger.(evicted := ledger.evicted + {v});
    }

    /** Inserts a new unsynced row under the next id. */
    method Insert(sub: Submission)
      requires Valid()
      modifies this
      ensures Valid() && nextId == old(nextId) + 1
      ensures table == old(table)[old(nextId) := Row(sub.uii, sub.now, false, 0)]
      ensures Unsynced(table) == Unsynced(old(table)) + {old(nextId)} && old(nextId) !in Unsynced(old(table))
      ensures ledger == old(ledger).(sends := old(ledger).sends + [0], successes := old(ledger).successes + [0])
    {
      table := table[nextId := Row(sub.uii, sub.now, false, 0)];
      ledger := ledger.(sends := ledger.sends + [0], successes := ledger.successes + [0]);
      nextId := nextId + 1;
    }

    /** CreateConfirmation: at the cap an oldest unsynced row makes room; the new row always goes in. */
    method CreateConfirmation(sub: Submission) returns (ghost gone: set<nat>)
      requires Valid()
      modifies this
      ensures Valid() && nextId == old(nextId) + 1
      ensures table == (old(table) - gone)[old(nextId) := Row(sub.uii, sub.now, false, 0)]
      ensures if 0 < sub.maxPending <= |Unsynced(old(table))|
              then exists victim :: gone == {victim} && Oldest(old(table), Unsynced(old(table)), victim)
              else gone == {}
      ensures sub.maxPending > 0 ==> |Unsynced(table)| <= Max(|Unsynced(old(table))|, sub.maxPending)
      ensures gone <= Unsynced(old(table)) && old(nextId) !in old(table)
      ensures Unsynced(table) == Unsynced(old(table)) - gone + {old(nextId)}
      ensures ledger == Ledger(old(ledger).sends + [0], old(ledger).successes + [0], old(ledger).evicted + gone)
    {
      gone := {};
      if sub.maxPending > 0 {
        var count := |Unsynced(table)|;
        if count >= sub.maxPending {
          ghost var victim := Evict();
          gone := {victim};
        }
      }
      Insert(sub);
    }

    /** GetUnsyncedConfirmations: picks an oldest remaining row until the limit or the end. */
    method GetUnsyncedConfirmations(limit: nat) returns (confs: seq<Confirmation>)
      ensures IsSnapshot(table, confs, limit)
    {
      confs := [];
      var rest := Unsynced(table);
      while |confs| < limit && rest != {}
        invariant |confs| <= limit && rest == Unsynced(table) - Ids(confs)
        invariant forall i | 0 <= i < |confs| :: confs[i].id in Unsynced(table) && confs[i] == Copy(table, confs[i].id)
        invariant forall i, j | 0 <= i < j < |confs| ::
                    confs[i].id != confs[j].id && confs[i].createdAt <= confs[j].createdAt
        invariant forall i, id | 0 <= i < |confs| && id in rest :: confs[i].createdAt <= table[id].createdAt
        decreases limit - |confs|
      {
        var _ := OldestExists(table, rest);
        var id: nat :| Oldest(table, rest, id);
        assert Oldest(table, rest, id);
        assert id in rest && id in Unsynced(table);
        ghost var before := confs;
        confs := confs + [Copy(table, id)];
        IdsSnoc(before, Copy(table, id));
        rest := rest - {id};
      }
      if rest == {} {
        forall id | id in Unsynced(table)
          ensures id in Ids(confs)
        {
          assert id !in rest;
        }
      }
    }

    /** One send, whose outcome the network decides, and its bookkeeping; a row evicted meanwhile stays evicted. */
    method SendOne(c: Confirmation, delivered: bool)
      requires Valid() && Untouched(table, ledger, c) && c.retryCount < MAX_RETRIES
      modifies this`table, this`ledger
      ensures Valid() && ledger.evicted == old(ledger).evicted
      ensures ChangedOnly(old(table), old(ledger), table, ledger, c.id)
      ensures |Unsynced(table)| <= |Unsynced(old(table))|
      ensures ledger.sends == old(ledger).sends[c.id := c.retryCount + 1]
      ensures ledger.successes == old(ledger).successes[c.id := if delivered then 1 else 0]
      ensures table == if c.id !in old(table) then old(table)
                       else old(table)[c.id := if delivered then old(table)[c.id].(synced := true)
                                               else old(table)[c.id].(retryCount := c.retryCount + 1)]
    {
      if c.id in table {
        assert RowReckoned(table[c.id], ledger.sends[c.id], ledger.successes[c.id]);
      }
      hide Unsynced;
      ledger := ledger.(sends := ledger.sends[c.id := ledger.sends[c.id] + 1],
                        successes := ledger.successes[c.id := if delivered then 1 else 0]);
      if c.id in table {
        if delivered {
          table := table[c.id := table[c.id].(synced := true)];
        } else {
          table := table[c.id := table[c.id].(retryCount := table[c.id].retryCount + 1)];
        }
      }
      FewerUnsynced(old(table), table);
    }

    /** Creations between two sends: nothing already there changes except by eviction. */
    method CreateAll(subs: seq<Submission>, ghost cap: nat)
      requires Valid()
      modifies this
      ensures Valid() && Grown(old(table), old(ledger), table, ledger)
      ensures Created(old(table), old(nextId), subs, table) && nextId == old(nextId) + |subs|
      ensures subs == [] ==> ledger == old(ledger)
      ensures Capped(subs, cap) ==> Evicting(old(table), old(ledger), table, ledger, cap)
      ensures Capped(subs, cap) ==> |Unsynced(table)| <= Max(|Unsynced(old(table))|, cap)
    {
      hide Reckoned, Unsynced, Oldest, Max, Capped, Evicting;
      assert Grown(table, ledger, table, ledger) && Created(table, nextId, subs[..0], table);
      EvictingSend(table, ledger, table, ledger, cap);
      MaxTwice(|Unsynced(table)|, 0, cap);
      for k := 0 to |subs|
        invariant Valid() && Grown(old(table), old(ledger), table, ledger)
        invariant Created(old(table), old(nextId), subs[..k], table) && nextId == old(nextId) + k
        invariant k == 0 ==> ledger == old(ledger)
        invariant Capped(subs, cap) ==> Evicting(old(table), old(ledger), table, ledger, cap)
        invariant Capped(subs, cap) ==> |Unsynced(table)| <= Max(|Unsynced(old(table))|, cap)
      {
        CreateNext(old(table), old(ledger), old(nextId), subs, k, cap);
      }
      assert subs[..|subs|] == subs;
    }

    method CreateNext(ghost t0: Table, ghost l0: Ledger, ghost n0: nat, subs: seq<Submission>, k: nat, ghost cap: nat)
      requires Valid() && k < |subs| && Grown(t0, l0, table, ledger)
      requires Created(t0, n0, subs[..k], table) && nextId == n0 + k
      requires Capped(subs, cap) ==> Evicting(t0, l0, table, ledger, cap)
      requires Capped(subs, cap) ==> |Unsynced(table)| <= Max(|Unsynced(t0)|, cap)
      modifies this
      ensures Valid() && Grown(t0, l0, table, ledger)
      ensures Created(t0, n0, subs[..k + 1], table) && nextId == n0 + k + 1
      ensures Capped(subs, cap) ==> Evicting(t0, l0, table, ledger, cap)
      ensures Capped(subs, cap) ==> |Unsynced(table)| <= Max(|Unsynced(t0)|, cap)
    {
      hide Reckoned, Unsynced, Oldest, Grown, Created, CreatedOne, Max, Evicting;
      ghost var t, l := table, ledger;
      assert Capped(subs, cap) ==> subs[k] in subs && subs[k].maxPending == cap && cap > 0;
      MaxTwice(|Unsynced(t0)|, |Unsynced(t)|, cap);
      EvictedApart(t, l);
      ghost var gone := CreateConfirmation(subs[k]);
      GrownOnce(t0, l0, t, l, gone, |l.sends|, table[|l.sends|], table, ledger);
      OneCreated(t, gone, |l.sends|, subs[k], table);
      CreatedSnoc(t0, n0, subs, k, t, table);
      if Capped(subs, cap) {
        EvictingOnce(t, l, gone, |l.sends|, table, ledger, cap);
        EvictingThen(t0, l0, t, l, table, ledger, cap);
      }
    }

    /** performFlush: sends every snapshot entry below the retry limit once, with creations arriving before each send.
        `delivers` and `arrivals` are the network's and the web handler's choices; an empty queue leaves the VPS status
        as it was. */
    method PerformFlush(delivers: nat -> bool, arrivals: nat -> seq<Submission>, wasOnline: bool, ghost cap: nat)
      returns (online: bool, ghost snapshot: seq<Confirmation>)
      requires Valid()
      modifies this
      ensures Valid() && IsSnapshot(old(table), snapshot, FLUSH_LIMIT)
      ensures nextId >= old(nextId) && old(ledger).evicted <= ledger.evicted
      // Exactly the entries below the limit are sent, once each, and nothing else is; the network decides which
      // succeed.
      ensures Sent(old(ledger).sends, snapshot, ledger.sends)
      ensures Sent(old(ledger).successes, Succeeded(snapshot, delivers), ledger.successes)
      ensures SameRows(old(table), old(nextId), table)
      ensures Quiet(arrivals) ==> nextId == old(nextId) && ledger.evicted == old(ledger).evicted
      // With nothing to send, a flush is the creations that arrive during it.
      ensures nextId == old(nextId) + |ArrivedBy(arrivals, |snapshot|)|
      ensures AllExhausted(snapshot, |snapshot|) ==>
                Created(old(table), old(nextId), ArrivedBy(arrivals, |snapshot|), table)
      // The queue never outgrows the larger of its start and the cap every submission names.
      ensures AllCapped(arrivals, cap) ==> |Unsynced(table)| <= Max(|Unsynced(old(table))|, cap)
      ensures AllCapped(arrivals, cap) ==> Evicting(old(table), old(ledger), table, ledger, cap)
      ensures online <==> if snapshot == [] then wasOnline else
                          forall i | 0 <= i < |snapshot| :: snapshot[i].retryCount >= MAX_RETRIES || delivers(i)
    {
      var confs := GetUnsyncedConfirmations(FLUSH_LIMIT);
      snapshot := confs;
      FollowedAtFirst(table, ledger, confs, delivers);
      assert Arrived(table, nextId, confs, arrivals, 0, table, nextId);
      if |confs| == 0 {
        FollowedAll(table, ledger, confs, delivers, table, ledger);
        return wasOnline, snapshot;
      }
      SnapshotUntouched(table, ledger, confs, FLUSH_LIMIT);
      assert Pending(table, ledger, confs, 0);
      hide Reckoned, IsSnapshot, Followed, Unsynced, Pending, Arrived;
      online := FlushAll(confs, delivers, arrivals, cap);
      FollowedAll(old(table), old(ledger), confs, delivers, table, ledger);
      ArrivedAll(old(table), old(nextId), confs, arrivals, table, nextId);
    }

    /** The loop over the snapshot; the answer says whether all that was sent was delivered. */
    method FlushAll(confs: seq<Confirmation>, delivers: nat -> bool, arrivals: nat -> seq<Submission>, ghost cap: nat)
      returns (online: bool)
      requires Valid() && Pending(table, ledger, confs, 0) && Followed(table, ledger, confs, delivers, 0, table, ledger)
      requires Arrived(table, nextId, confs, arrivals, 0, table, nextId)
      modifies this
      ensures Valid() && Followed(old(table), old(ledger), confs, delivers, |confs|, table, ledger)
      ensures Arrived(old(table), old(nextId), confs, arrivals, |confs|, table, nextId)
      ensures Quiet(arrivals) ==> nextId == old(nextId) && ledger.evicted == old(ledger).evicted
      ensures AllCapped(arrivals, cap) ==> |Unsynced(table)| <= Max(|Unsynced(old(table))|, cap)
      ensures AllCapped(arrivals, cap) ==> Evicting(old(table), old(ledger), table, ledger, cap)
      ensures online <==> forall i | 0 <= i < |confs| :: confs[i].retryCount >= MAX_RETRIES || delivers(i)
    {
      hide Reckoned, Followed, Unsynced, Pending, Arrived, Quiet, AllCapped, Evicting, Max;
      online := true;
      EvictingSend(table, ledger, table, ledger, cap);
      MaxTwice(|Unsynced(table)|, 0, cap);
      for i := 0 to |confs|
        invariant Valid() && Pending(table, ledger, confs, i)
        invariant Followed(old(table), old(ledger), confs, delivers, i, table, ledger)
        invariant Arrived(old(table), old(nextId), confs, arrivals, i, table, nextId)
        invariant Quiet(arrivals) ==> nextId == old(nextId) && ledger.evicted == old(ledger).evicted
        invariant AllCapped(arrivals, cap) ==> |Unsynced(table)| <= Max(|Unsynced(old(table))|, cap)
        invariant AllCapped(arrivals, cap) ==> Evicting(old(table), old(ledger), table, ledger, cap)
        invariant online <==> forall k | 0 <= k < i :: confs[k].retryCount >= MAX_RETRIES || delivers(k)
      {
        ghost var t, l := table, ledger;
        MaxTwice(|Unsynced(old(table))|, |Unsynced(t)|, cap);
        FlushOne(old(table), old(ledger), confs, i, delivers, arrivals, cap);
        if AllCapped(arrivals, cap) {
          EvictingThen(old(table), old(ledger), t, l, table, ledger, cap);
        }
        if confs[i].retryCount < MAX_RETRIES && !delivers(i) {
          online := false;
        }
      }
    }

    /** One turn of the flush: creations arrive, then the entry is sent unless it is exhausted. */
    method FlushOne(ghost t0: Table, ghost l0: Ledger, confs: seq<Confirmation>, i: nat, delivers: nat -> bool,
                    arrivals: nat -> seq<Submission>, ghost cap: nat)
      requires Valid() && i < |confs| && Pending(table, ledger, confs, i)
      requires Followed(t0, l0, confs, delivers, i, table, ledger)
      requires Arrived(t0, |l0.sends|, confs, arrivals, i, table, nextId)
      modifies this
      ensures Valid() && Pending(table, ledger, confs, i + 1)
      ensures Followed(t0, l0, confs, delivers, i + 1, table, ledger)
      ensures Arrived(t0, |l0.sends|, confs, arrivals, i + 1, table, nextId)
      ensures Quiet(arrivals) ==> nextId == old(nextId) && ledger.evicted == old(ledger).evicted
      ensures AllCapped(arrivals, cap) ==> |Unsynced(table)| <= Max(|Unsynced(old(table))|, cap)
      ensures AllCapped(arrivals, cap) ==> Evicting(old(table), old(ledger), table, ledger, cap)
    {
      hide Reckoned, Followed, Unsynced, Capped, Arrived, Created;
      ghost var t, l, n := table, ledger, nextId;
      CreateAll(arrivals(i), cap);
      GrownKeeps(t, l, table, ledger, confs[i..]);
      GrownFollowed(t0, l0, confs, delivers, i, t, l, table, ledger);
      CreatedArrived(t0, |l0.sends|, confs, arrivals, i, t, n, table);
      t, l := table, ledger;
      assert confs[i..][0] == confs[i] && Untouched(t, l, confs[i]);
      if confs[i].retryCount < MAX_RETRIES {
        SendOne(confs[i], delivers(i));
        assert l.successes[confs[i].id := 0] == l.successes;
        SentArrived(t0, |l0.sends|, confs, arrivals, i, table, nextId);
      }
      SendFollowed(t0, l0, confs, delivers, i, t, l, table);
      RestUntouched(t, l, table, ledger, confs, i);
    }
  }

  /** After `i` entries: the ids used are those of the arrivals, and if nothing was to be sent there were creations
      only. */
  ghost predicate Arrived(t0: Table, n0: nat, confs: seq<Confirmation>, arrivals: nat -> seq<Submission>, i: nat,
                          t: Table, n: nat)
    requires i <= |confs|
  {
    && n == n0 + |ArrivedBy(arrivals, i)|
    && (AllExhausted(confs, i) ==> Created(t0, n0, ArrivedBy(arrivals, i), t))
  }

  lemma ArrivedAll(t0: Table, n0: nat, confs: seq<Confirmation>, arrivals: nat -> seq<Submission>, t: Table, n: nat)
    requires Arrived(t0, n0, confs, arrivals, |confs|, t, n)
    ensures n == n0 + |ArrivedBy(arrivals, |confs|)|
    ensures AllExhausted(confs, |confs|) ==> Created(t0, n0, ArrivedBy(arrivals, |confs|), t)
  {
  }

  /** The arrivals before a send; what the send itself does to the rows matters only if there is one. */
  lemma CreatedArrived(t0: Table, n0: nat, confs: seq<Confirmation>, arrivals: nat -> seq<Submission>, i: nat, t: Table,
                       n: nat, t': Table)
    requires i < |confs| && Arrived(t0, n0, confs, arrivals, i, t, n) && Created(t, n, arrivals(i), t')
    ensures confs[i].retryCount >= MAX_RETRIES ==> Arrived(t0, n0, confs, arrivals, i + 1, t', n + |arrivals(i)|)
    ensures n + |arrivals(i)| == n0 + |ArrivedBy(arrivals, i + 1)|
  {
    if AllExhausted(confs, i) {
      CreatedThen(t0, n0, ArrivedBy(arrivals, i), t, arrivals(i), t');
    }
  }

  lemma SentArrived(t0: Table, n0: nat, confs: seq<Confirmation>, arrivals: nat -> seq<Submission>, i: nat, t: Table,
                    n: nat)
    requires i < |confs| && confs[i].retryCount < MAX_RETRIES && n == n0 + |ArrivedBy(arrivals, i + 1)|
    ensures Arrived(t0, n0, confs, arrivals, i + 1, t, n)
  {
  }

  /** One creation, at the cap with an eviction before it. */
  ghost predicate CreatedOne(t: Table, id: nat, sub: Submission, t': Table) {
    id !in t && exists gone: set<nat> ::
      && t' == (t - gone)[id := Row(sub.uii, sub.now, false, 0)]
      && if 0 < sub.maxPending <= |Unsynced(t)| then exists victim :: gone == {victim} && Oldest(t, Unsynced(t), victim)
         else gone == {}
  }

  /** `t'` is what some creations in a row make of `t`, the first of them under this id. */
  ghost predicate Created(t: Table, id: nat, subs: seq<Submission>, t': Table)
    decreases |subs|
  {
    if subs == [] then t' == t
    else
      var k := |subs| - 1;
      exists m :: Created(t, id, subs[..k], m) && CreatedOne(m, id + k, subs[k], t')
  }

  lemma OneCreated(t: Table, gone: set<nat>, id: nat, sub: Submission, t': Table)
    requires id !in t && t' == (t - gone)[id := Row(sub.uii, sub.now, false, 0)]
    requires if 0 < sub.maxPending <= |Unsynced(t)|
             then exists victim :: gone == {victim} && Oldest(t, Unsynced(t), victim)
             else gone == {}
    ensures CreatedOne(t, id, sub, t')
  {
  }

  lemma CreatedSnoc(t: Table, id: nat, subs: seq<Submission>, k: nat, m: Table, t': Table)
    requires k < |subs| && Created(t, id, subs[..k], m) && CreatedOne(m, id + k, subs[k], t')
    ensures Created(t, id, subs[..k + 1], t')
  {
    assert subs[..k + 1][..k] == subs[..k];
  }

  lemma {:induction false} CreatedThen(t: Table, id: nat, xs: seq<Submission>, m: Table, ys: seq<Submission>, t': Table)
    requires Created(t, id, xs, m) && Created(m, id + |xs|, ys, t')
    ensures Created(t, id, xs + ys, t')
    decreases |ys|
  {
    hide CreatedOne;
    if ys == [] {
      assert xs + ys == xs;
    } else {
      var k := |ys| - 1;
      var m' :| Created(m, id + |xs|, ys[..k], m') && CreatedOne(m', id + |xs| + k, ys[k], t');
      CreatedThen(t, id, xs, m, ys[..k], m');
      assert (xs + ys)[..|xs| + k] == xs + ys[..k];
      CreatedSnoc(t, id, xs + ys, |xs| + k, m', t');
      assert (xs + ys)[..|xs| + k + 1] == xs + ys;
    }
  }

  /** What arrives before the first `n` sends of a flush. */
  function ArrivedBy(arrivals: nat -> seq<Submission>, n: nat): seq<Submission> {
    if n == 0 then [] else ArrivedBy(arrivals, n - 1) + arrivals(n - 1)
  }

  predicate AllExhausted(confs: seq<Confirmation>, n: nat)
    requires n <= |confs|
  {
    forall i | 0 <= i < n :: confs[i].retryCount >= MAX_RETRIES
  }

  ghost predicate Quiet(arrivals: nat -> seq<Submission>) {
    forall i: nat :: arrivals(i) == []
  }

  lemma MaxTwice(a: int, b: int, cap: int)
    ensures a <= Max(a, cap) && (b <= Max(a, cap) ==> Max(b, cap) <= Max(a, cap))
  {
  }

  /** The entries whose send succeeded. */
  function Succeeded(confs: seq<Confirmation>, delivers: nat -> bool): seq<Confirmation> {
    if confs == [] then []
    else
      var n := |confs| - 1;
      Succeeded(confs[..n], delivers) + if delivers(n) then [confs[n]] else []
  }

  /** The counts after the first `i` entries. */
  ghost predicate Recorded(before: Ledger, confs: seq<Confirmation>, delivers: nat -> bool, i: nat, after: Ledger)
    requires i <= |confs|
  {
    Sent(before.sends, confs[..i], after.sends) &&
        Sent(before.successes, Succeeded(confs[..i], delivers), after.successes)
  }

  /** Rows with an id below `n` are those that were there, but for their synced flag and retry count. */
  predicate SameRows(t: Table, n: nat, t': Table) {
    forall id <- t' | id < n :: id in t && t'[id].uii == t[id].uii && t'[id].createdAt == t[id].createdAt
  }

  /** The first `i` entries have been dealt with since the ledger read `l0`. */
  ghost predicate Followed(t0: Table, l0: Ledger, confs: seq<Confirmation>, delivers: nat -> bool, i: nat, t: Table,
                           l: Ledger)
    requires i <= |confs|
  {
    && Recorded(l0, confs, delivers, i, l) && SameRows(t0, |l0.sends|, t)
    && |l0.sends| <= |l.sends| && l0.evicted <= l.evicted
  }

  lemma FollowedAtFirst(t: Table, l: Ledger, confs: seq<Confirmation>, delivers: nat -> bool)
    ensures Followed(t, l, confs, delivers, 0, t, l)
  {
    assert confs[..0] == [];
  }

  lemma FollowedAll(t0: Table, l0: Ledger, confs: seq<Confirmation>, delivers: nat -> bool, t: Table, l: Ledger)
    requires Followed(t0, l0, confs, delivers, |confs|, t, l)
    ensures Sent(l0.sends, confs, l.sends) && Sent(l0.successes, Succeeded(confs, delivers), l.successes)
    ensures SameRows(t0, |l0.sends|, t) && |l0.sends| <= |l.sends| && l0.evicted <= l.evicted
  {
    assert confs[..|confs|] == confs;
  }

  lemma GrownFollowed(t0: Table, l0: Ledger, confs: seq<Confirmation>, delivers: nat -> bool, i: nat, t: Table,
                      l: Ledger, t': Table, l': Ledger)
    requires i <= |confs| && Followed(t0, l0, confs, delivers, i, t, l) && Grown(t, l, t', l')
    requires forall c <- confs :: c.id < |l.sends| == |l.successes|
    ensures Followed(t0, l0, confs, delivers, i, t', l')
  {
    SucceededAmong(confs[..i], delivers);
    hide Sendable, Succeeded;
    GrownSent(l0.sends, confs[..i], l.sends, l'.sends);
    GrownSent(l0.successes, Succeeded(confs[..i], delivers), l.successes, l'.successes);
    hide Sent;
  }

  lemma SendFollowed(t0: Table, l0: Ledger, confs: seq<Confirmation>, delivers: nat -> bool, i: nat, t: Table,
                     l: Ledger, t': Table)
    requires i < |confs| && Followed(t0, l0, confs, delivers, i, t, l)
    requires forall k <- t' :: k in t && t'[k].uii == t[k].uii && t'[k].createdAt == t[k].createdAt
    requires confs[i].id < |l.sends| == |l.successes|
    requires forall a, b | 0 <= a < b < |confs| :: confs[a].id != confs[b].id
    ensures Followed(t0, l0, confs, delivers, i + 1, t', AfterSend(l, confs[i], delivers(i)))
  {
    SendRecorded(l0, confs, delivers, i, l);
    hide Recorded;
  }

  function AfterSend(l: Ledger, c: Confirmation, delivered: bool): Ledger
    requires c.id < |l.sends| == |l.successes|
  {
    if c.retryCount >= MAX_RETRIES then l
    else l.(sends := l.sends[c.id := l.sends[c.id] + 1],
            successes := if delivered then l.successes[c.id := l.successes[c.id] + 1] else l.successes)
  }

  lemma {:induction false} SucceededHas(confs: seq<Confirmation>, delivers: nat -> bool, i: nat)
    requires i < |confs| && forall a, b | 0 <= a < b < |confs| :: confs[a].id != confs[b].id
    ensures Sendable(Succeeded(confs, delivers), confs[i].id) <==> delivers(i) && confs[i].retryCount < 10
  {
    var n := |confs| - 1;
    var first := Succeeded(confs[..n], delivers);
    SucceededAmong(confs[..n], delivers);
    if i < n {
      SucceededHas(confs[..n], delivers, i);
      assert forall c <- first :: c in Succeeded(confs, delivers);
    } else {
      assert forall c <- first :: c.id != confs[n].id;
      if delivers(n) {
        assert Succeeded(confs, delivers)[|first|] == confs[n];
      }
    }
  }

  /** A flush entry by entry: one with fewer than ten retries behind it is sent once, is synced if it was
      delivered, and has one retry more if it was not; any other is not sent, and neither is any row outside the
      snapshot. */
  method FlushSpelled(store: LocalStore, delivers: nat -> bool, arrivals: nat -> seq<Submission>, wasOnline: bool)
    returns (online: bool, ghost snapshot: seq<Confirmation>)
    requires store.Valid()
    modifies store
    ensures store.Valid() && IsSnapshot(old(store.table), snapshot, 100)
    ensures forall i | 0 <= i < |snapshot| ::
              var c := snapshot[i];
              && c.id < |old(store.ledger).sends| <= |store.ledger.sends|
              && store.ledger.sends[c.id] == old(store.ledger).sends[c.id] + (if c.retryCount < 10 then 1 else 0)
              && (c.id in store.table ==>
                    && (store.table[c.id].synced <==> c.retryCount < 10 && delivers(i))
                    && store.table[c.id].retryCount ==
                       c.retryCount + if c.retryCount < 10 && !delivers(i) then 1 else 0)
    ensures forall id | 0 <= id < |old(store.ledger).sends| <= |store.ledger.sends| && id !in Ids(snapshot) ::
              store.ledger.sends[id] == old(store.ledger).sends[id]
    ensures online <==> if snapshot == [] then wasOnline else
                        forall i | 0 <= i < |snapshot| :: snapshot[i].retryCount >= 10 || delivers(i)
  {
    ghost var t, l := store.table, store.ledger;
    online, snapshot := store.PerformFlush(delivers, arrivals, wasOnline, 0);
    SnapshotUntouched(t, l, snapshot, 100);
    forall i | 0 <= i < |snapshot|
      ensures var c := snapshot[i];
              && c.id < |l.sends| <= |store.ledger.sends|
              && store.ledger.sends[c.id] == l.sends[c.id] + (if c.retryCount < 10 then 1 else 0)
              && (c.id in store.table ==>
                    && (store.table[c.id].synced <==> c.retryCount < 10 && delivers(i))
                    && store.table[c.id].retryCount ==
                       c.retryCount + if c.retryCount < 10 && !delivers(i) then 1 else 0)
    {
      EntrySpelled(t, l, snapshot, delivers, i, store.table, store.ledger);
    }
    forall id | 0 <= id < |l.sends| && id !in Ids(snapshot)
      ensures !Sendable(snapshot, id)
    {
    }
  }

  lemma EntrySpelled(
    t: Table, l: Ledger, confs: seq<Confirmation>, delivers: nat -> bool, i: nat, t': Table, l': Ledger)
    requires Reckoned(t, l) && Reckoned(t', l') && IsSnapshot(t, confs, 100) && AllUntouched(t, l, confs) && i < |confs|
    requires Sent(l.sends, confs, l'.sends) && Sent(l.successes, Succeeded(confs, delivers), l'.successes)
    ensures var c := confs[i];
            && c.id < |l.sends| <= |l'.sends|
            && l'.sends[c.id] == l.sends[c.id] + (if c.retryCount < 10 then 1 else 0)
            && (c.id in t' ==>
                  && (t'[c.id].synced <==> c.retryCount < 10 && delivers(i))
                  && t'[c.id].retryCount == c.retryCount + if c.retryCount < 10 && !delivers(i) then 1 else 0)
  {
    var c := confs[i];
    assert Untouched(t, l, c);
    assert Sendable(confs, c.id) <==> c.retryCount < 10 by {
      assert c in confs;
      assert forall d <- confs :: d.id == c.id ==> d == c;
    }
    SucceededHas(confs, delivers, i);
    if c.id in t' {
      assert RowReckoned(t'[c.id], l'.sends[c.id], l'.successes[c.id]);
    }
  }

  datatype Step = Create(sub: Submission) | Flush(delivers: nat -> bool, arrivals: nat -> seq<Submission>)

  ghost predicate StepCapped(step: Step, cap: nat) {
    match step
    case Create(sub) => Capped([sub], cap)
    case Flush(_, arrivals) => AllCapped(arrivals, cap)
  }

  /** Any history of creations and flushes from an empty queue: every id ever created is pending, synced or evicted, was
      sent at most ten times and delivered at most once, and the queue never outgrows the cap. */
  method History(script: seq<Step>, ghost cap: nat) returns (store: LocalStore)
    ensures fresh(store) && store.Valid() && |store.ledger.sends| == store.nextId
    ensures forall id | 0 <= id < store.nextId ::
              (id in store.table || id in store.ledger.evicted) &&
              store.ledger.sends[id] <= 10 && store.ledger.successes[id] <= 1
    ensures (forall step <- script :: StepCapped(step, cap)) ==> |Unsynced(store.table)| <= cap
  {
    store := new LocalStore();
    assert Unsynced(store.table) == {};
    var online := true;
    for i := 0 to |script|
      invariant fresh(store) && store.Valid()
      invariant (forall step <- script :: StepCapped(step, cap)) ==> |Unsynced(store.table)| <= cap
    {
      assert script[i] in script;
      match script[i]
      case Create(sub) =>
        assert StepCapped(script[i], cap) ==> sub in [sub] && Capped([sub], cap) && sub.maxPending == cap && cap > 0;
        var _ := store.CreateConfirmation(sub);
      case Flush(delivers, arrivals) =>
        ghost var snapshot;
        online, snapshot := store.PerformFlush(delivers, arrivals, online, cap);
    }
  }

  /** The entries from `i` on are untouched, and all are distinct rows. */
  ghost predicate Pending(t: Table, l: Ledger, confs: seq<Confirmation>, i: nat)
    requires i <= |confs|
  {
    && AllUntouched(t, l, confs[i..]) && |l.sends| == |l.successes| && (forall c <- confs :: c.id < |l.sends|)
    && (forall a, b | 0 <= a < b < |confs| :: confs[a].id != confs[b].id)
  }

  ghost predicate AllCapped(arrivals: nat -> seq<Submission>, cap: nat) {
    forall i: nat :: Capped(arrivals(i), cap)
  }

  /** Every submission names this cap. */
  predicate Capped(subs: seq<Submission>, cap: nat) {
    cap > 0 && forall s <- subs :: s.maxPending == cap
  }

  /** Some entry for this id may still be sent. */
  predicate Sendable(confs: seq<Confirmation>, id: nat) {
    exists c :: c in confs && c.id == id && c.retryCount < MAX_RETRIES
  }

  /** Each entry below the retry limit was sent once more, and no other row was sent at all. */
  ghost predicate Sent(before: seq<nat>, confs: seq<Confirmation>, after: seq<nat>) {
    && |before| <= |after|
    && forall id | 0 <= id < |after| ::
         after[id] == (if id < |before| then before[id] else 0) + (if Sendable(confs, id) then 1 else 0)
  }

  ghost predicate AllUntouched(t: Table, l: Ledger, confs: seq<Confirmation>) {
    forall k | 0 <= k < |confs| :: Untouched(t, l, confs[k])
  }

  lemma SnapshotUntouched(t: Table, l: Ledger, confs: seq<Confirmation>, limit: nat)
    requires Reckoned(t, l) && IsSnapshot(t, confs, limit)
    ensures AllUntouched(t, l, confs)
    ensures forall i, j | 0 <= i < j < |confs| :: confs[i].id != confs[j].id
  {
    forall k | 0 <= k < |confs|
      ensures Untouched(t, l, confs[k])
    {
      assert confs[k].id in t && RowReckoned(t[confs[k].id], l.sends[confs[k].id], l.successes[confs[k].id]);
    }
  }

  /** Only the row and the counts of one id differ. */
  ghost predicate ChangedOnly(t: Table, l: Ledger, t': Table, l': Ledger, id: nat) {
    && |l'.sends| == |l.sends| && |l'.successes| == |l.successes|
    && (forall k | 0 <= k < |l.sends| && k != id :: l'.sends[k] == l.sends[k])
    && (forall k | 0 <= k < |l.successes| && k != id :: l'.successes[k] == l.successes[k])
    && (forall k <- t' :: k != id ==> k in t && t'[k] == t[k])
  }

  lemma RestUntouched(t: Table, l: Ledger, t': Table, l': Ledger, confs: seq<Confirmation>, i: nat)
    requires i < |confs| && AllUntouched(t, l, confs[i..]) && ChangedOnly(t, l, t', l', confs[i].id)
    requires forall a, b | 0 <= a < b < |confs| :: confs[a].id != confs[b].id
    ensures AllUntouched(t', l', confs[i + 1..])
  {
    var rest := confs[i + 1..];
    forall k | 0 <= k < |rest|
      ensures Untouched(t', l', rest[k])
    {
      assert rest[k] == confs[i..][k + 1] == confs[i + 1 + k];
    }
  }

  /** One more entry, for an id that has none yet. */
  lemma SentOneMore(before: seq<nat>, confs: seq<Confirmation>, c: Confirmation, after: seq<nat>)
    requires Sent(before, confs, after) && c.id < |after|
    requires forall x <- confs :: x.id != c.id
    ensures Sent(before, confs + [c], if c.retryCount < MAX_RETRIES then after[c.id := after[c.id] + 1] else after)
  {
    assert forall id :: Sendable(confs + [c], id) <==>
                        Sendable(confs, id) || (c.id == id && c.retryCount < MAX_RETRIES) by {
      assert forall x <- confs :: x in confs + [c];
      assert (confs + [c])[|confs|] == c;
    }
    assert !Sendable(confs, c.id);
  }

  lemma {:induction false} SucceededAmong(confs: seq<Confirmation>, delivers: nat -> bool)
    ensures forall c <- Succeeded(confs, delivers) :: c in confs
  {
    if confs != [] {
      SucceededAmong(confs[..|confs| - 1], delivers);
    }
  }

  lemma SendRecorded(before: Ledger, confs: seq<Confirmation>, delivers: nat -> bool, i: nat, l: Ledger)
    requires i < |confs| && Recorded(before, confs, delivers, i, l)
    requires confs[i].id < |l.sends| == |l.successes|
    requires forall a, b | 0 <= a < b < |confs| :: confs[a].id != confs[b].id
    ensures Recorded(before, confs, delivers, i + 1, AfterSend(l, confs[i], delivers(i)))
  {
    hide Sent;
    var c, done := confs[i], Succeeded(confs[..i], delivers);
    SucceededAmong(confs[..i], delivers);
    SucceededSnoc(confs, delivers, i);
    hide Succeeded;
    assert confs[..i + 1] == confs[..i] + [c];
    SentOneMore(before.sends, confs[..i], c, l.sends);
    SentOneMore(before.successes, done, c, l.successes);
    assert done + [] == done;
  }

  lemma SucceededSnoc(confs: seq<Confirmation>, delivers: nat -> bool, i: nat)
    requires i < |confs|
    ensures Succeeded(confs[..i + 1], delivers) ==
            Succeeded(confs[..i], delivers) + if delivers(i) then [confs[i]] else []
  {
    assert confs[..i + 1][..i] == confs[..i];
  }

  lemma GrownKeeps(t: Table, l: Ledger, t': Table, l': Ledger, confs: seq<Confirmation>)
    requires Grown(t, l, t', l') && AllUntouched(t, l, confs)
    ensures AllUntouched(t', l', confs)
  {
  }

  lemma GrownSent(before: seq<nat>, confs: seq<Confirmation>, counts: seq<nat>, counts': seq<nat>)
    requires Sent(before, confs, counts) && counts <= counts' &&
              forall id | |counts| <= id < |counts'| :: counts'[id] == 0
    requires forall c <- confs :: c.id < |counts|
    ensures Sent(before, confs, counts')
  {
  }

  /** Only new ids appear, and old rows are unchanged or gone. */
  ghost predicate Grown(t: Table, l: Ledger, t': Table, l': Ledger) {
    && l.sends <= l'.sends && l.successes <= l'.successes && l.evicted <= l'.evicted
    && (forall id | |l.sends| <= id < |l'.sends| :: l'.sends[id] == 0)
    && (forall id | |l.successes| <= id < |l'.successes| :: l'.successes[id] == 0)
    && (forall id <- t' :: id < |l.sends| ==> id in t && t'[id] == t[id])
  }

  lemma GrownOnce(t0: Table, l0: Ledger, t: Table, l: Ledger, gone: set<nat>, id: nat, row: Row,
                  t': Table, l': Ledger)
    requires Grown(t0, l0, t, l) && |l.sends| == |l.successes| == id
    requires t' == (t - gone)[id := row]
    requires l' == Ledger(l.sends + [0], l.successes + [0], l.evicted + gone)
    ensures Grown(t0, l0, t', l')
  {
  }

  lemma IdsSnoc(confs: seq<Confirmation>, c: Confirmation)
    ensures Ids(confs + [c]) == Ids(confs) + {c.id}
  {
  }
}
