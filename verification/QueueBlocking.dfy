/** When rows that have used up their retries keep everything behind them from being sent. */
module QueueBlocking {
  import opened ConfirmationQueue

  predicate Exhausted(r: Row) {
    r.retryCount >= MAX_RETRIES
  }

  /** The unsynced rows that may still be sent. */
  function Sendables(t: Table): (ids: set<nat>)
    ensures ids <= Unsynced(t)
  {
    set id | id in Unsynced(t) && !Exhausted(t[id])
  }

  function ExhaustedOlder(t: Table, id: nat): set<nat>
    requires id in t
  {
    set x | x in Unsynced(t) && Exhausted(t[x]) && t[x].createdAt < t[id].createdAt
  }

  function ExhaustedNotNewer(t: Table, id: nat): set<nat>
    requires id in t
  {
    set x | x in Unsynced(t) && Exhausted(t[x]) && t[x].createdAt <= t[id].createdAt
  }

  /** Every row that may still be sent waits behind at least `limit` exhausted ones. */
  predicate Blocked(t: Table, limit: nat) {
    forall id <- Sendables(t) :: |ExhaustedOlder(t, id)| >= limit
  }

  /** Every row that may still be sent may come after `limit` exhausted ones, if rows of equal age are answered so. */
  predicate MayBlock(t: Table, limit: nat) {
    forall id <- Sendables(t) :: |ExhaustedNotNewer(t, id)| >= limit
  }

  predicate HasSendable(confs: seq<Confirmation>) {
    exists c :: c in confs && c.retryCount < MAX_RETRIES
  }

  predicate DistinctTimes(t: Table) {
    forall x, y | x in Unsynced(t) && y in Unsynced(t) && x != y :: t[x].createdAt != t[y].createdAt
  }

  // ---- One snapshot ------------------------------------------------------------------------

  /** A row with fewer than `limit` exhausted rows that are not newer brings some sendable row into every snapshot. */
  lemma SendableShows(t: Table, confs: seq<Confirmation>, limit: nat, id: nat)
    requires IsSnapshot(t, confs, limit) && id in Sendables(t)
    requires |ExhaustedNotNewer(t, id)| < limit
    ensures HasSendable(confs)
  {
    if !HasSendable(confs) {
      DistinctIds(confs);
      assert forall i | 0 <= i < |confs| :: confs[i] in confs;
      assert id !in Ids(confs);
      assert Ids(confs) <= ExhaustedNotNewer(t, id);
      Larger(Ids(confs), ExhaustedNotNewer(t, id));
      assert false;
    }
  }

  /** A blocked queue shows no snapshot a row that may still be sent. */
  lemma BlockedShowsNone(t: Table, confs: seq<Confirmation>, limit: nat)
    requires IsSnapshot(t, confs, limit) && Blocked(t, limit)
    ensures !HasSendable(confs)
  {
    if c :| c in confs && c.retryCount < MAX_RETRIES {
      assert c.id in Sendables(t) && c.id in Ids(confs);
      ReachedByAge(t, confs, limit, c.id);
      Larger(ExhaustedOlder(t, c.id), Older(t, c.id));
      assert false;
    }
  }

  /** `a` is answered before `b`: it is older, or of equal age and of the preferred kind. */
  predicate Before(t: Table, exhaustedFirst: bool, a: nat, b: nat)
    requires a in t && b in t
  {
    || t[a].createdAt < t[b].createdAt
    || (t[a].createdAt == t[b].createdAt && (Exhausted(t[a]) == exhaustedFirst || Exhausted(t[b]) != exhaustedFirst))
  }

  lemma {:induction false} FirstExists(t: Table, ids: set<nat>, exhaustedFirst: bool) returns (first: nat)
    requires ids <= t.Keys && ids != {}
    ensures first in ids && forall id <- ids :: Before(t, exhaustedFirst, first, id)
    decreases |ids|
  {
    first :| first in ids;
    if ids != {first} {
      var rest := ids - {first};
      assert ids == rest + {first};
      var best := FirstExists(t, rest, exhaustedFirst);
      if !Before(t, exhaustedFirst, first, best) {
        first := best;
      }
      forall id | id in rest
        ensures Before(t, exhaustedFirst, first, id)
      {
        assert Before(t, exhaustedFirst, best, id);
      }
    }
  }

  /** There is a snapshot that settles ties by a preference. */
  lemma {:induction false} SnapshotPreferring(t: Table, limit: nat, exhaustedFirst: bool)
    returns (confs: seq<Confirmation>)
    ensures IsSnapshot(t, confs, limit)
    ensures forall i, id | 0 <= i < |confs| && id in Unsynced(t) - Ids(confs) ::
              Before(t, exhaustedFirst, confs[i].id, id)
  {
    if limit == 0 {
      confs := [];
    } else {
      confs := SnapshotPreferring(t, limit - 1, exhaustedFirst);
      var rest := Unsynced(t) - Ids(confs);
      if rest == {} {
        assert forall id <- Unsynced(t) :: id !in rest;
      } else {
        var first := FirstExists(t, rest, exhaustedFirst);
        assert first in Unsynced(t) && first !in Ids(confs);
        OneMoreShown(t, confs, limit, first, exhaustedFirst);
        confs := confs + [Copy(t, first)];
      }
    }
  }

  lemma OneMoreShown(t: Table, confs: seq<Confirmation>, limit: nat, first: nat, exhaustedFirst: bool)
    requires limit > 0 && IsSnapshot(t, confs, limit - 1) && first in Unsynced(t) && first !in Ids(confs)
    requires forall id | id in Unsynced(t) - Ids(confs) :: Before(t, exhaustedFirst, first, id)
    requires forall i, id | 0 <= i < |confs| && id in Unsynced(t) - Ids(confs) ::
               Before(t, exhaustedFirst, confs[i].id, id)
    ensures var more := confs + [Copy(t, first)];
            && IsSnapshot(t, more, limit)
            && forall i, id | 0 <= i < |more| && id in Unsynced(t) - Ids(more) ::
                 Before(t, exhaustedFirst, more[i].id, id)
  {
    var more := confs + [Copy(t, first)];
    IdsSnoc(confs, Copy(t, first));
    assert forall i | 0 <= i < |confs| :: more[i] == confs[i] && confs[i].id in Ids(confs);
    forall i, id | 0 <= i < |more| && id in Unsynced(t) - Ids(more)
      ensures more[i].id in t && Before(t, exhaustedFirst, more[i].id, id) && more[i].createdAt <= t[id].createdAt
    {
      assert id in Unsynced(t) - Ids(confs);
      if i < |confs| {
        assert more[i] == confs[i] && confs[i] == Copy(t, confs[i].id);
      }
    }
    assert first in Unsynced(t) - Ids(confs);
  }

  /** Whatever order the query gives to rows of equal age, no snapshot contains a row that may still be sent exactly
      when the queue is blocked. */
  lemma EverySnapshotShowsNoneIff(t: Table, limit: nat)
    ensures (forall confs :: IsSnapshot(t, confs, limit) ==> !HasSendable(confs)) <==> Blocked(t, limit)
  {
    forall confs | IsSnapshot(t, confs, limit) && Blocked(t, limit)
      ensures !HasSendable(confs)
    {
      BlockedShowsNone(t, confs, limit);
    }
    if !Blocked(t, limit) {
      var id :| id in Sendables(t) && |ExhaustedOlder(t, id)| < limit;
      assert id in Sendables(t) && |ExhaustedOlder(t, id)| < limit;
      var confs := SnapshotPreferring(t, limit, false);
      if !HasSendable(confs) {
        DistinctIds(confs);
        assert forall i | 0 <= i < |confs| :: confs[i] in confs;
        assert id !in Ids(confs);
        assert Ids(confs) <= ExhaustedOlder(t, id);
        Larger(Ids(confs), ExhaustedOlder(t, id));
        assert false;
      }
    }
  }

  /** And some snapshot contains none exactly when the queue may block. */
  lemma SomeSnapshotShowsNoneIff(t: Table, limit: nat)
    ensures (exists confs :: IsSnapshot(t, confs, limit) && !HasSendable(confs)) <==> MayBlock(t, limit)
  {
    if confs :| IsSnapshot(t, confs, limit) && !HasSendable(confs) {
      forall id | id in Sendables(t)
        ensures |ExhaustedNotNewer(t, id)| >= limit
      {
        if |ExhaustedNotNewer(t, id)| < limit {
          SendableShows(t, confs, limit, id);
        }
      }
    }
    if MayBlock(t, limit) {
      var confs := SnapshotPreferring(t, limit, true);
      if c :| c in confs && c.retryCount < MAX_RETRIES {
        ShownAfterAll(t, confs, limit, c);
        assert false;
      }
    }
  }

  lemma ShownAfterAll(t: Table, confs: seq<Confirmation>, limit: nat, c: Confirmation)
    requires IsSnapshot(t, confs, limit) && c in confs && c.retryCount < MAX_RETRIES
    requires forall i, id | 0 <= i < |confs| && id in Unsynced(t) - Ids(confs) :: Before(t, true, confs[i].id, id)
    ensures c.id in Sendables(t) && |ExhaustedNotNewer(t, c.id)| < limit
  {
    DistinctIds(confs);
    var i :| 0 <= i < |confs| && confs[i] == c;
    assert confs[i].id in Ids(confs);
    forall x | x in ExhaustedNotNewer(t, c.id)
      ensures x in Ids(confs)
    {
      assert !Before(t, true, confs[i].id, x);
    }
    Larger(ExhaustedNotNewer(t, c.id) + {c.id}, Ids(confs));
  }

  /** With distinct creation times there is only one order, and the two conditions are one. */
  lemma SnapshotSendsIff(t: Table, confs: seq<Confirmation>, limit: nat)
    requires IsSnapshot(t, confs, limit) && DistinctTimes(t)
    ensures HasSendable(confs) <==> !Blocked(t, limit)
    ensures Blocked(t, limit) <==> MayBlock(t, limit)
  {
    assert forall id <- Sendables(t) :: ExhaustedNotNewer(t, id) == ExhaustedOlder(t, id);
    if Blocked(t, limit) {
      BlockedShowsNone(t, confs, limit);
    } else {
      var id :| id in Sendables(t) && |ExhaustedOlder(t, id)| < limit;
      assert id in Sendables(t) && |ExhaustedOlder(t, id)| < limit;
      SendableShows(t, confs, limit, id);
    }
  }

  // ---- One flush ---------------------------------------------------------------------------

  /** No row was sent, whether it existed before or was created since. */
  predicate NothingSent(before: seq<nat>, after: seq<nat>) {
    before <= after && forall id | |before| <= id < |after| :: after[id] == 0
  }

  lemma NothingAtFirst(a: seq<nat>)
    ensures NothingSent(a, a)
  {
  }

  lemma NothingYet(a: seq<nat>, b: seq<nat>, c: seq<nat>)
    requires NothingSent(a, b) && NothingSent(b, c)
    ensures NothingSent(a, c)
  {
  }

  lemma SentNothingIff(before: seq<nat>, confs: seq<Confirmation>, after: seq<nat>)
    requires Sent(before, confs, after) && forall c <- confs :: c.id < |before|
    ensures NothingSent(before, after) <==> !HasSendable(confs)
  {
    if c :| c in confs && c.retryCount < MAX_RETRIES {
      assert Sendable(confs, c.id);
      assert after[c.id] == before[c.id] + 1;
    }
  }

  function SnapshotSize(t: Table): nat {
    if |Unsynced(t)| < FLUSH_LIMIT then |Unsynced(t)| else FLUSH_LIMIT
  }

  lemma SnapshotLength(t: Table, confs: seq<Confirmation>)
    requires IsSnapshot(t, confs, FLUSH_LIMIT)
    ensures |confs| == SnapshotSize(t)
  {
    DistinctIds(confs);
    assert Ids(confs) <= Unsynced(t);
    Larger(Ids(confs), Unsynced(t));
    if |confs| < FLUSH_LIMIT {
      assert Ids(confs) == Unsynced(t);
    }
  }

  lemma QuietArrivals(arrivals: nat -> seq<Submission>, n: nat)
    requires Quiet(arrivals)
    ensures ArrivedBy(arrivals, n) == []
  {
  }

  /** A flush of a blocked queue sends nothing, is no more than the creations that arrive during it, and yet reports the
      server online, whatever would be delivered. A flush that sends nothing found a queue that may block; with distinct
      creation times, one that was blocked. */
  method FlushBlocked(store: LocalStore, delivers: nat -> bool, arrivals: nat -> seq<Submission>, wasOnline: bool)
    returns (online: bool)
    requires store.Valid()
    modifies store
    ensures store.Valid()
    ensures Blocked(old(store.table), FLUSH_LIMIT) ==>
              && NothingSent(old(store.ledger).sends, store.ledger.sends)
              && var subs := ArrivedBy(arrivals, SnapshotSize(old(store.table)));
                 Created(old(store.table), old(store.nextId), subs, store.table)
    ensures Blocked(old(store.table), FLUSH_LIMIT) && Quiet(arrivals) ==> store.table == old(store.table)
    ensures Blocked(old(store.table), FLUSH_LIMIT) && Unsynced(old(store.table)) != {} ==> online
    ensures NothingSent(old(store.ledger).sends, store.ledger.sends) ==> MayBlock(old(store.table), FLUSH_LIMIT)
    ensures DistinctTimes(old(store.table)) ==>
              (NothingSent(old(store.ledger).sends, store.ledger.sends) <==> Blocked(old(store.table), FLUSH_LIMIT))
  {
    ghost var t, l := store.table, store.ledger;
    ghost var snapshot;
    online, snapshot := store.PerformFlush(delivers, arrivals, wasOnline, 0);
    FlushedIff(t, l, snapshot, store.ledger.sends);
    SnapshotLength(t, snapshot);
    if Blocked(t, FLUSH_LIMIT) {
      assert forall i | 0 <= i < |snapshot| :: snapshot[i] in snapshot;
      if Quiet(arrivals) {
        QuietArrivals(arrivals, |snapshot|);
      }
    }
  }

  lemma FlushedIff(t: Table, l: Ledger, snapshot: seq<Confirmation>, sends: seq<nat>)
    requires Reckoned(t, l) && IsSnapshot(t, snapshot, FLUSH_LIMIT) && Sent(l.sends, snapshot, sends)
    ensures Blocked(t, FLUSH_LIMIT) ==> NothingSent(l.sends, sends) && !HasSendable(snapshot)
    ensures NothingSent(l.sends, sends) ==> MayBlock(t, FLUSH_LIMIT)
    ensures DistinctTimes(t) ==> (NothingSent(l.sends, sends) <==> Blocked(t, FLUSH_LIMIT))
  {
    assert forall c <- snapshot :: c.id in t;
    SentNothingIff(l.sends, snapshot, sends);
    hide Sent, NothingSent, Reckoned;
    if Blocked(t, FLUSH_LIMIT) {
      BlockedShowsNone(t, snapshot, FLUSH_LIMIT);
    }
    if !HasSendable(snapshot) {
      SomeSnapshotShowsNoneIff(t, FLUSH_LIMIT);
    }
    if DistinctTimes(t) {
      SnapshotSendsIff(t, snapshot, FLUSH_LIMIT);
    }
  }

  // ---- How long it lasts -------------------------------------------------------------------

  /** The exhausted rows before every row that may still be sent. */
  function Head(t: Table): (ids: set<nat>)
    ensures ids <= Unsynced(t)
  {
    set x | x in Unsynced(t) && Exhausted(t[x]) && forall id <- Sendables(t) :: t[x].createdAt < t[id].createdAt
  }

  lemma BlockedIffHead(t: Table, limit: nat)
    requires Sendables(t) != {}
    ensures Blocked(t, limit) <==> |Head(t)| >= limit
  {
    var first := OldestExists(t, Sendables(t));
    assert Head(t) == ExhaustedOlder(t, first);
    forall id | id in Sendables(t)
      ensures |Head(t)| <= |ExhaustedOlder(t, id)|
    {
      Larger(Head(t), ExhaustedOlder(t, id));
    }
  }

  /** A creation takes at most its one victim from the head, and puts the new row behind everything. */
  lemma HeadAfterCreation(t: Table, gone: set<nat>, id: nat, row: Row, t': Table)
    requires t' == (t - gone)[id := row] && id !in t && !row.synced && !Exhausted(row)
    requires gone == {} || exists victim :: gone == {victim} && Oldest(t, Unsynced(t), victim)
    requires Sendables(t) != {} && (gone == {} || Head(t) != {})
    requires forall x <- Unsynced(t) :: t[x].createdAt <= row.createdAt
    ensures gone <= Head(t) && Head(t') == Head(t) - gone
    ensures Sendables(t') == Sendables(t) + {id}
  {
    if gone != {} {
      var victim :| gone == {victim} && Oldest(t, Unsynced(t), victim);
      assert gone == {victim} && Oldest(t, Unsynced(t), victim);
      var x :| x in Head(t);
      assert x in Head(t) && t[victim].createdAt <= t[x].createdAt;
    }
    assert Sendables(t') == Sendables(t) + {id};
    var s :| s in Sendables(t);
    assert s in Sendables(t);
    forall x | x in Head(t) - gone
      ensures x in Head(t')
    {
      assert t[x].createdAt < t[s].createdAt <= row.createdAt;
    }
  }

  lemma EvictionsAdd(unsynced: nat, cap: int, m: nat, n: nat)
    ensures Evictions(unsynced, cap, m) <= m
    ensures Evictions(unsynced, cap, m + n) ==
            Evictions(unsynced, cap, m) + Evictions(unsynced + m - Evictions(unsynced, cap, m), cap, n)
  {
  }

  lemma EvictionsGrow(unsynced: nat, cap: int, m: nat, n: nat)
    requires m <= n
    ensures Evictions(unsynced, cap, m) <= Evictions(unsynced, cap, n)
  {
  }

  predicate InOrder(t: Table, subs: seq<Submission>) {
    && (forall x, k | x in Unsynced(t) && 0 <= k < |subs| :: t[x].createdAt <= subs[k].now)
    && (forall j, k | 0 <= j < k < |subs| :: subs[j].now <= subs[k].now)
  }

  /** Every submission names this cap, or that there is none. */
  predicate Uniform(subs: seq<Submission>, cap: int) {
    forall k | 0 <= k < |subs| :: subs[k].maxPending == cap
  }

  /** How far creations have come: `n` of them on a queue of `unsynced` rows, `head` of them at its head. */
  predicate Come(t: Table, head: nat, unsynced: nat, cap: int, n: nat) {
    && Sendables(t) != {}
    && |Head(t)| == head - Evictions(unsynced, cap, n)
    && |Unsynced(t)| == unsynced + n - Evictions(unsynced, cap, n)
  }

  /** What is still to come fits into the head if all of it did. */
  lemma ComeFits(t: Table, head: nat, unsynced: nat, cap: int, m: nat, n: nat, total: nat)
    requires Come(t, head, unsynced, cap, m) && m + n <= total && Evictions(unsynced, cap, total) <= head
    ensures Evictions(|Unsynced(t)|, cap, n) <= |Head(t)|
  {
    hide Sendables, Head, Unsynced;
    EvictionsAdd(unsynced, cap, m, n);
    EvictionsGrow(unsynced, cap, m + n, total);
  }

  lemma ComeFurther(t: Table, t': Table, head: nat, unsynced: nat, cap: int, m: nat, n: nat)
    requires Come(t, head, unsynced, cap, m) && Come(t', |Head(t)|, |Unsynced(t)|, cap, n)
    ensures Come(t', head, unsynced, cap, m + n)
  {
    EvictionsAdd(unsynced, cap, m, n);
  }

  /** Creations in a row, each at the cap taking one row from the head and none below it. */
  lemma {:induction false} HeadAfterAll(t: Table, id: nat, subs: seq<Submission>, t': Table, more: seq<Submission>,
                                        cap: int)
    requires Created(t, id, subs, t') && Sendables(t) != {} && InOrder(t, subs + more) && Uniform(subs, cap)
    requires Evictions(|Unsynced(t)|, cap, |subs|) <= |Head(t)|
    ensures Come(t', |Head(t)|, |Unsynced(t)|, cap, |subs|) && InOrder(t', more)
    decreases |subs|
  {
    hide Head, Oldest, Exhausted, Unsynced, CreatedOne;
    if subs == [] {
      assert subs + more == more;
    } else {
      var k := |subs| - 1;
      var m :| Created(t, id, subs[..k], m) && CreatedOne(m, id + k, subs[k], t');
      assert subs[..k] + ([subs[k]] + more) == subs + more;
      EvictionsGrow(|Unsynced(t)|, cap, k, |subs|);
      HeadAfterAll(t, id, subs[..k], m, [subs[k]] + more, cap);
      assert subs[k].maxPending == cap && Sendables(m) != {};
      ComeFits(m, |Head(t)|, |Unsynced(t)|, cap, k, 1, |subs|);
      hide InOrder, Uniform, Created, Come, Evictions;
      CreatedComes(m, id + k, subs[k], more, t');
      ComeFurther(m, t', |Head(t)|, |Unsynced(t)|, cap, k, 1);
    }
  }

  lemma CreatedComes(t: Table, id: nat, sub: Submission, more: seq<Submission>, t': Table)
    requires CreatedOne(t, id, sub, t') && InOrder(t, [sub] + more) && Sendables(t) != {}
    requires Evictions(|Unsynced(t)|, sub.maxPending, 1) <= |Head(t)|
    ensures Come(t', |Head(t)|, |Unsynced(t)|, sub.maxPending, 1) && InOrder(t', more)
  {
    var gone: set<nat> :|
      && t' == (t - gone)[id := Row(sub.uii, sub.now, false, 0)]
      && if 0 < sub.maxPending <= |Unsynced(t)| then exists victim :: gone == {victim} && Oldest(t, Unsynced(t), victim)
         else gone == {};
    assert ([sub] + more)[1..] == more && ([sub] + more)[0] == sub;
    hide InOrder;
    CreatedInHead(t, gone, id, [sub] + more, t');
  }

  /** What a step creates, if it is not a flush that sends, flushes finding `size` rows each. */
  function StepSubs(step: Step, size: nat): seq<Submission> {
    match step
    case Create(sub) => [sub]
    case Flush(_, arrivals) => ArrivedBy(arrivals, size)
  }

  function Subs(script: seq<Step>, size: nat): seq<Submission> {
    if script == [] then [] else StepSubs(script[0], size) + Subs(script[1..], size)
  }

  /** The creations of the first `k` steps. */
  function Count(script: seq<Step>, size: nat, k: nat): nat
    requires k <= |script|
  {
    if k == 0 then 0 else Count(script, size, k - 1) + |StepSubs(script[k - 1], size)|
  }

  lemma {:induction false} CountGrows(script: seq<Step>, size: nat, j: nat, k: nat)
    requires j <= k <= |script|
    ensures Count(script, size, j) <= Count(script, size, k)
  {
    hide StepSubs;
    if j < k {
      CountGrows(script, size, j, k - 1);
    }
  }

  /** Where a queue with `head` rows at its head stands after `k` steps of a script. */
  function HeadAfter(head: nat, unsynced: nat, cap: int, script: seq<Step>, size: nat, k: nat): int
    requires k <= |script|
  {
    head - Evictions(unsynced, cap, Count(script, size, k))
  }

  lemma UniformParts(a: seq<Submission>, b: seq<Submission>, cap: int)
    requires Uniform(a + b, cap)
    ensures Uniform(a, cap) && Uniform(b, cap)
  {
    assert forall k | 0 <= k < |a| :: (a + b)[k] == a[k];
    assert forall k | 0 <= k < |b| :: (a + b)[|a| + k] == b[k];
  }

  lemma StepFits(head: nat, unsynced: nat, cap: int, script: seq<Step>, size: nat, k: nat, t: Table)
    requires k < |script| && HeadAfter(head, unsynced, cap, script, size, |script|) >= 0
    requires Come(t, head, unsynced, cap, Count(script, size, k))
    ensures Evictions(|Unsynced(t)|, cap, |StepSubs(script[k], size)|) <= |Head(t)|
  {
    hide StepSubs, Come, Evictions, ArrivedBy;
    CountGrows(script, size, k + 1, |script|);
    ComeFits(t, head, unsynced, cap,
             Count(script, size, k), |StepSubs(script[k], size)|, Count(script, size, |script|));
  }

  /** `k` steps have been taken, and the others are still in order. */
  predicate OnCourse(t: Table, head: nat, unsynced: nat, cap: int, script: seq<Step>, size: nat, k: nat)
    requires k <= |script|
  {
    && Come(t, head, unsynced, cap, Count(script, size, k))
    && InOrder(t, Subs(script[k..], size)) && Uniform(Subs(script[k..], size), cap)
  }

  lemma CourseFacts(t: Table, head: nat, unsynced: nat, cap: int, script: seq<Step>, size: nat, k: nat)
    requires k <= |script| && OnCourse(t, head, unsynced, cap, script, size, k)
    ensures Sendables(t) != {} && |Head(t)| == HeadAfter(head, unsynced, cap, script, size, k)
    ensures Blocked(t, FLUSH_LIMIT) <==> |Head(t)| >= FLUSH_LIMIT
  {
    hide InOrder, Uniform, Evictions;
    BlockedIffHead(t, FLUSH_LIMIT);
  }

  lemma CourseBegins(t: Table, cap: int, script: seq<Step>, size: nat)
    requires Sendables(t) != {} && InOrder(t, Subs(script, size)) && Uniform(Subs(script, size), cap)
    ensures OnCourse(t, |Head(t)|, |Unsynced(t)|, cap, script, size, 0)
  {
    assert script[0..] == script;
  }

  /** One more step of the script. */
  lemma StepComes(t: Table, id: nat, t': Table, head: nat, unsynced: nat, cap: int, script: seq<Step>, size: nat,
                  k: nat)
    requires k < |script| && HeadAfter(head, unsynced, cap, script, size, |script|) >= 0
    requires OnCourse(t, head, unsynced, cap, script, size, k) && Created(t, id, StepSubs(script[k], size), t')
    ensures OnCourse(t', head, unsynced, cap, script, size, k + 1)
  {
    hide StepSubs, InOrder, Uniform, Created, Evictions, Head, Sendables, Unsynced;
    var subs, more := StepSubs(script[k], size), Subs(script[k + 1..], size);
    assert script[k..][0] == script[k] && script[k..][1..] == script[k + 1..];
    StepFits(head, unsynced, cap, script, size, k, t);
    UniformParts(subs, more, cap);
    HeadAfterAll(t, id, subs, t', more, cap);
    ComeFurther(t, t', head, unsynced, cap, Count(script, size, k), |subs|);
  }

  /** One creation, or one flush that finds a full snapshot of rows at the head. */
  method StepWhileBlocked(store: LocalStore, step: Step) returns (online: bool)
    requires store.Valid() && Sendables(store.table) != {}
    requires step.Flush? ==> |Head(store.table)| >= FLUSH_LIMIT
    modifies store
    ensures store.Valid() && online && NothingSent(old(store.ledger).sends, store.ledger.sends)
    ensures Created(old(store.table), old(store.nextId), StepSubs(step, FLUSH_LIMIT), store.table)
  {
    hide ArrivedBy;
    match step
    case Create(sub) =>
      online := CreateOne(store, sub);
    case Flush(delivers, arrivals) =>
      BlockedIffHead(store.table, FLUSH_LIMIT);
      Larger(Head(store.table), Unsynced(store.table));
      assert Head(store.table) != {};
      hide Created, Blocked, Head, Sendables, NothingSent;
      online := FlushBlocked(store, delivers, arrivals, true);
  }

  method CreateOne(store: LocalStore, sub: Submission) returns (online: bool)
    requires store.Valid()
    modifies store
    ensures store.Valid() && online && NothingSent(old(store.ledger).sends, store.ledger.sends)
    ensures Created(old(store.table), old(store.nextId), [sub], store.table)
  {
    ghost var t, id := store.table, store.nextId;
    assert [sub][..0] == [] && [sub][..1] == [sub] && Created(t, id, [], t);
    hide Created, CreatedOne, Unsynced, Oldest, Reckoned;
    ghost var gone := store.CreateConfirmation(sub);
    OneCreated(t, gone, id, sub, store.table);
    CreatedSnoc(t, id, [sub], 0, t, store.table);
    online := true;
  }

  /** One step, unless it is a flush that finds too few rows at the head; such a flush is left undone. */
  method TurnWhileBlocked(store: LocalStore, script: seq<Step>, k: nat, ghost head: nat, ghost unsynced: nat,
                          ghost cap: int, ghost sends: seq<nat>) returns (free: bool, online: bool)
    requires store.Valid() && k < |script| && OnCourse(store.table, head, unsynced, cap, script, FLUSH_LIMIT, k)
    requires HeadAfter(head, unsynced, cap, script, FLUSH_LIMIT, |script|) >= 0 &&
              NothingSent(sends, store.ledger.sends)
    modifies store
    ensures store.Valid() && online && NothingSent(sends, store.ledger.sends)
    ensures free <==> script[k].Flush? && HeadAfter(head, unsynced, cap, script, FLUSH_LIMIT, k) < FLUSH_LIMIT
    ensures OnCourse(store.table, head, unsynced, cap, script, FLUSH_LIMIT, if free then k else k + 1)
  {
    hide OnCourse, HeadAfter, StepSubs, Head, Sendables, Created, NothingSent, Blocked, Reckoned;
    CourseFacts(store.table, head, unsynced, cap, script, FLUSH_LIMIT, k);
    online := true;
    free := script[k].Flush? && |Head(store.table)| < FLUSH_LIMIT;
    if !free {
      ghost var t, id, before := store.table, store.nextId, store.ledger.sends;
      online := StepWhileBlocked(store, script[k]);
      StepComes(t, id, store.table, head, unsynced, cap, script, FLUSH_LIMIT, k);
      NothingYet(sends, before, store.ledger.sends);
    }
  }

  /** Any script of creations and flushes, creations during the flushes included, on a queue with something to send
      and with enough rows at its head for all evictions the script brings. It runs up to its first flush that finds
      fewer than a full snapshot of rows at the head. Until then the head shrinks by the cap's evictions only, nothing
      is sent, and every flush reports the server online; at that flush the queue is not blocked. */
  method RunWhileBlocked(store: LocalStore, script: seq<Step>, cap: int) returns (k: nat, online: bool)
    requires store.Valid() && Sendables(store.table) != {}
    requires InOrder(store.table, Subs(script, FLUSH_LIMIT)) && Uniform(Subs(script, FLUSH_LIMIT), cap)
    requires HeadAfter(|Head(store.table)|, |Unsynced(store.table)|, cap, script, FLUSH_LIMIT, |script|) >= 0
    modifies store
    ensures store.Valid() && k <= |script| && online
    ensures NothingSent(old(store.ledger).sends, store.ledger.sends)
    ensures Sendables(store.table) != {}
    ensures |Head(store.table)| ==
            HeadAfter(|Head(old(store.table))|, |Unsynced(old(store.table))|, cap, script, FLUSH_LIMIT, k)
    ensures forall j | 0 <= j < k && script[j].Flush? ::
              HeadAfter(|Head(old(store.table))|, |Unsynced(old(store.table))|, cap, script, FLUSH_LIMIT, j)
              >= FLUSH_LIMIT
    ensures Blocked(store.table, FLUSH_LIMIT) <==> |Head(store.table)| >= FLUSH_LIMIT
    ensures k < |script| ==> script[k].Flush? && !Blocked(store.table, FLUSH_LIMIT)
  {
    hide OnCourse, HeadAfter, StepSubs, Head, Sendables, Subs, InOrder, Uniform, NothingSent, Blocked, Unsynced,
        Reckoned;
    ghost var h0, u0 := |Head(store.table)|, |Unsynced(store.table)|;
    CourseBegins(store.table, cap, script, FLUSH_LIMIT);
    k, online := 0, true;
    NothingAtFirst(store.ledger.sends);
    while k < |script|
      invariant k <= |script| && store.Valid() && online
      invariant OnCourse(store.table, h0, u0, cap, script, FLUSH_LIMIT, k)
      invariant NothingSent(old(store.ledger).sends, store.ledger.sends)
      invariant forall j | 0 <= j < k && script[j].Flush? ::
                  HeadAfter(h0, u0, cap, script, FLUSH_LIMIT, j) >= FLUSH_LIMIT
      decreases |script| - k
    {
      var free;
      free, online := TurnWhileBlocked(store, script, k, h0, u0, cap, old(store.ledger).sends);
      if free {
        break;
      }
      k := k + 1;
    }
    CourseFacts(store.table, h0, u0, cap, script, FLUSH_LIMIT, k);
  }

  lemma CreatedInHead(t: Table, gone: set<nat>, id: nat, subs: seq<Submission>, t': Table)
    requires subs != [] && InOrder(t, subs) && Sendables(t) != {} && id !in t
    requires t' == (t - gone)[id := Row(subs[0].uii, subs[0].now, false, 0)]
    requires gone == {} || exists victim :: gone == {victim} && Oldest(t, Unsynced(t), victim)
    requires gone == {} || Head(t) != {}
    ensures InOrder(t', subs[1..]) && Sendables(t') != {}
    ensures |Head(t')| == |Head(t)| - |gone| && |Unsynced(t')| == |Unsynced(t)| - |gone| + 1
  {
    StillInOrder(t, gone, id, subs, t');
    HeadAfterCreation(t, gone, id, t'[id], t');
    hide Head, Sendables, Oldest, Exhausted, InOrder;
    UnsyncedAfterCreation(t, gone, id, t'[id], t');
  }

  lemma StillInOrder(t: Table, gone: set<nat>, id: nat, subs: seq<Submission>, t': Table)
    requires subs != [] && InOrder(t, subs) && t' == (t - gone)[id := Row(subs[0].uii, subs[0].now, false, 0)]
    ensures InOrder(t', subs[1..])
    ensures forall x <- Unsynced(t) :: t[x].createdAt <= t'[id].createdAt
  {
  }

  lemma UnsyncedAfterCreation(t: Table, gone: set<nat>, id: nat, row: Row, t': Table)
    requires t' == (t - gone)[id := row] && id !in t && !row.synced && gone <= Unsynced(t)
    ensures |Unsynced(t')| == |Unsynced(t)| - |gone| + 1
  {
    assert Unsynced(t') == Unsynced(t) - gone + {id};
  }

  // ---- A blocked queue, reached by the code ------------------------------------------------

  /** Rows 0 to n - 1, each failed `k` times. */
  function Failed(n: nat, k: nat): Table {
    map id: nat | id < n :: Row("", id, false, k)
  }

  function Below(n: nat): (ids: set<nat>)
    ensures |ids| == n && forall id: nat :: id in ids <==> id < n
  {
    if n == 0 then {} else Below(n - 1) + {n - 1}
  }

  lemma {:induction false} NoneSucceeded(confs: seq<Confirmation>, delivers: nat -> bool)
    requires forall i: nat :: !delivers(i)
    ensures Succeeded(confs, delivers) == []
  {
    if confs != [] {
      NoneSucceeded(confs[..|confs| - 1], delivers);
    }
  }

  /** A snapshot of no more rows than the limit shows them all. */
  lemma SmallQueueShownWhole(t: Table, confs: seq<Confirmation>, limit: nat)
    requires IsSnapshot(t, confs, limit) && |Unsynced(t)| <= limit
    ensures Unsynced(t) == Ids(confs)
  {
    DistinctIds(confs);
    assert Ids(confs) <= Unsynced(t);
    if id :| id in Unsynced(t) && id !in Ids(confs) {
      Larger(Ids(confs) + {id}, Unsynced(t));
    }
  }

  lemma AllShown(n: nat, k: nat, confs: seq<Confirmation>)
    requires IsSnapshot(Failed(n, k), confs, n) && k < MAX_RETRIES
    ensures forall id: nat | id < n :: Sendable(confs, id)
  {
    var t := Failed(n, k);
    assert Unsynced(t) == Below(n);
    SmallQueueShownWhole(t, confs, n);
    forall id: nat | id < n
      ensures Sendable(confs, id)
    {
      assert id in Unsynced(t) && id in Ids(confs);
      var i :| 0 <= i < |confs| && confs[i].id == id;
      assert confs[i] in confs && confs[i] == Copy(t, id);
    }
  }

  /** A flush that delivers nothing fails each of the hundred rows once more. */
  lemma FailedOnceMore(l: Ledger, k: nat, confs: seq<Confirmation>, t': Table, l': Ledger)
    requires Reckoned(Failed(FLUSH_LIMIT, k), l) && |l.sends| == |l'.sends| == FLUSH_LIMIT && k < MAX_RETRIES
    requires IsSnapshot(Failed(FLUSH_LIMIT, k), confs, FLUSH_LIMIT)
    requires Reckoned(t', l') && l'.evicted == {} && SameRows(Failed(FLUSH_LIMIT, k), FLUSH_LIMIT, t')
    requires Sent(l.sends, confs, l'.sends) && Sent(l.successes, [], l'.successes)
    ensures t' == Failed(FLUSH_LIMIT, k + 1)
  {
    var t := Failed(FLUSH_LIMIT, k);
    AllShown(FLUSH_LIMIT, k, confs);
    hide IsSnapshot, Unsynced;
    forall id: nat | id < FLUSH_LIMIT
      ensures id in t' && t'[id] == Row("", id, false, k + 1)
    {
      assert Sendable(confs, id) && !Sendable([], id);
      hide Sendable;
      assert RowReckoned(t[id], l.sends[id], l.successes[id]);
      assert id in t' || id in l'.evicted;
      assert RowReckoned(t'[id], l'.sends[id], l'.successes[id]);
    }
  }

  /** A hundred confirmations, one a second, with no cap. */
  method CreateHundred() returns (store: LocalStore)
    ensures fresh(store) && store.Valid() && store.nextId == FLUSH_LIMIT
    ensures store.table == Failed(FLUSH_LIMIT, 0) && store.ledger.evicted == {}
  {
    store := new LocalStore();
    assert store.table == Failed(0, 0);
    hide Reckoned, Unsynced;
    for i := 0 to FLUSH_LIMIT
      invariant fresh(store) && store.Valid() && store.nextId == i
      invariant store.table == Failed(i, 0) && store.ledger.evicted == {}
    {
      ghost var gone := store.CreateConfirmation(Submission("", i, 0));
    }
  }

  /** One flush while the server takes nothing. */
  method FlushInVain(store: LocalStore, ghost k: nat)
    requires store.Valid() && store.nextId == FLUSH_LIMIT && k < MAX_RETRIES
    requires store.table == Failed(FLUSH_LIMIT, k) && store.ledger.evicted == {}
    modifies store
    ensures store.Valid() && store.nextId == FLUSH_LIMIT
    ensures store.table == Failed(FLUSH_LIMIT, k + 1) && store.ledger.evicted == {}
  {
    ghost var l := store.ledger;
    var online;
    ghost var snapshot;
    hide Reckoned, Unsynced, IsSnapshot, SameRows, Sent, Succeeded, Failed, Max;
    online, snapshot := store.PerformFlush(_ => false, _ => [], true, 0);
    NoneSucceeded(snapshot, _ => false);
    FailedOnceMore(l, k, snapshot, store.table, store.ledger);
  }

  /** The code runs into a blocked queue: a hundred confirmations fail ten times each, and one more is created. */
  method BlockedQueue() returns (store: LocalStore)
    ensures fresh(store) && store.Valid() && store.nextId == FLUSH_LIMIT + 1 && store.ledger.sends[FLUSH_LIMIT] == 0
    ensures Sendables(store.table) == {FLUSH_LIMIT} && Blocked(store.table, FLUSH_LIMIT)
    ensures Unsynced(store.table) != {}
  {
    store := CreateHundred();
    hide Reckoned, Failed, Unsynced, Sendables, Blocked;
    for k := 0 to MAX_RETRIES
      invariant fresh(store) && store.Valid() && store.nextId == FLUSH_LIMIT
      invariant store.table == Failed(FLUSH_LIMIT, k) && store.ledger.evicted == {}
    {
      FlushInVain(store, k);
    }
    ghost var gone := store.CreateConfirmation(Submission("", FLUSH_LIMIT, 0));
    LastIsBlocked(store.table, FLUSH_LIMIT);
  }

  /** There a server that would now take everything is sent nothing, and is reported online. */
  method NewcomerWaits() returns (store: LocalStore, online: bool)
    ensures store.Valid() && online && |store.ledger.sends| > FLUSH_LIMIT && store.ledger.sends[FLUSH_LIMIT] == 0
  {
    store := BlockedQueue();
    online := FlushBlocked(store, _ => true, _ => [], false);
  }

  lemma LastIsBlocked(t: Table, n: nat)
    requires t == Failed(n, MAX_RETRIES)[n := Row("", n, false, 0)]
    ensures Sendables(t) == {n} && Blocked(t, n) && Unsynced(t) != {}
  {
    assert ExhaustedOlder(t, n) == Below(n);
    assert n in Unsynced(t);
  }
}
