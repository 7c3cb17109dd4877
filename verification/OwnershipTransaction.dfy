/** The progress-prefix journal over several objects: apply, inverse, and resumption after an interruption. */
module OwnershipTransaction {
  import opened Wrappers

  datatype ObjectState = ObjectState(uid: nat, gid: nat, mode: nat)

  datatype Entry = Entry(before: ObjectState, after: ObjectState)

  datatype Direction = Apply | Inverse

  datatype Phase = Pending | Done

  datatype Journal = Journal(direction: Direction, phase: Phase, progress: seq<bool>)

  function Pre(e: Entry, d: Direction): ObjectState { if d.Apply? then e.before else e.after }

  function Post(e: Entry, d: Direction): ObjectState { if d.Apply? then e.after else e.before }

  /** How many leading objects the journal says are finished. */
  function Current(progress: seq<bool>): (k: nat)
    ensures k <= |progress|
    ensures forall i | 0 <= i < k :: progress[i]
    ensures k < |progress| ==> !progress[k]
  {
    if progress == [] || !progress[0] then 0 else 1 + Current(progress[1..])
  }

  /** Progress is a prefix, and complete once done; the reader refuses anything else. */
  predicate WellFormed(j: Journal, n: nat) {
    && |j.progress| == n
    && (forall i | Current(j.progress) <= i < n :: !j.progress[i])
    && (j.phase.Done? ==> Current(j.progress) == n)
  }

  /** Objects below the progress are at post, the next one is at pre or post, the others are at pre. */
  predicate Matches(es: seq<Entry>, objects: seq<ObjectState>, j: Journal)
    requires |es| == |objects| == |j.progress|
  {
    forall i | 0 <= i < |es| ::
      if j.progress[i] || j.phase.Done? then objects[i] == Post(es[i], j.direction)
      else objects[i] == Pre(es[i], j.direction) || (i == Current(j.progress) && objects[i] == Post(es[i], j.direction))
  }

  /** The journal invariant: no journal means every object is as it was found. */
  predicate Holds(es: seq<Entry>, objects: seq<ObjectState>, journal: Option<Journal>) {
    && |es| == |objects|
    && match journal
       case None => forall i | 0 <= i < |es| :: objects[i] == es[i].before
       case Some(j) => WellFormed(j, |es|) && Matches(es, objects, j)
  }

  predicate AllAt(es: seq<Entry>, objects: seq<ObjectState>, d: Direction) {
    |es| == |objects| && forall i | 0 <= i < |es| :: objects[i] == Post(es[i], d)
  }

  predicate Distinct(es: seq<Entry>, k: nat)
    requires k <= |es|
  {
    forall i | 0 <= i < k :: es[i].before != es[i].after
  }

  /** Only a completed direction can be turned round, and only an apply starts from nothing. */
  predicate Startable(journal: Option<Journal>, d: Direction) {
    match journal
    case None => d.Apply?
    case Some(j) => j.direction == d || j.phase.Done?
  }

  /** Where a run in direction `d` picks up: past the recorded progress of a pending journal of its own direction. */
  function ResumeAt(journal: Option<Journal>, d: Direction): nat {
    match journal
    case Some(j) => if j.direction == d && j.phase.Pending? then Current(j.progress) else 0
    case None => 0
  }

  /** The runs that finish when nothing fails: startable, no leftover temporary, and no entry below the recorded
      progress whose two states coincide. */
  predicate Finishes(es: seq<Entry>, journal: Option<Journal>, leftover: bool, d: Direction) {
    && !leftover && Startable(journal, d)
    && ResumeAt(journal, d) <= |es| && Distinct(es, ResumeAt(journal, d))
  }

  function Blank(n: nat): (p: seq<bool>)
    ensures |p| == n && Current(p) == 0 && forall i | 0 <= i < n :: !p[i]
  {
    seq(n, _ => false)
  }

  lemma {:induction false} PrefixCurrent(progress: seq<bool>, k: nat)
    requires k <= |progress| && (forall i | 0 <= i < k :: progress[i]) && (k < |progress| ==> !progress[k])
    ensures Current(progress) == k
  {
    if k > 0 {
      PrefixCurrent(progress[1..], k - 1);
    }
  }

  lemma HeldFacts(es: seq<Entry>, objects: seq<ObjectState>, journal: Option<Journal>)
    requires Holds(es, objects, journal)
    ensures |es| == |objects|
    ensures journal.Some? ==>
              var j := journal.value;
              && WellFormed(j, |es|) && |j.progress| == |es| && Matches(es, objects, j)
              && (j.phase.Done? ==> AllAt(es, objects, j.direction))
  {
  }

  /** Mutating the object the journal points at keeps the invariant. */
  lemma MutationKeeps(es: seq<Entry>, objects: seq<ObjectState>, j: Journal, i: nat)
    requires Holds(es, objects, Some(j)) && j.phase.Pending? && i < |es| && i == Current(j.progress)
    ensures Holds(es, objects[i := Post(es[i], j.direction)], Some(j))
  {
  }

  /** So does recording it, once it is at post. */
  lemma ProgressKeeps(es: seq<Entry>, objects: seq<ObjectState>, j: Journal, i: nat)
    requires Holds(es, objects, Some(j)) && j.phase.Pending? && i < |es| && i == Current(j.progress)
    requires objects[i] == Post(es[i], j.direction)
    ensures Holds(es, objects, Some(j.(progress := j.progress[i := true])))
    ensures Current(j.progress[i := true]) == i + 1
  {
    PrefixCurrent(j.progress[i := true], i + 1);
  }

  // ---- The journal that survives a power loss ----------------------------------------------

  /** What a power loss needs: no object has changed since the durable journal was written, when the objects were
      `anchor`, except the one that journal points at. */
  predicate Kept(durable: Option<Journal>, anchor: seq<ObjectState>, objects: seq<ObjectState>) {
    && |objects| == |anchor|
    && forall i | 0 <= i < |objects| && objects[i] != anchor[i] ::
         durable.Some? && durable.value.phase.Pending? && i == Current(durable.value.progress)
  }

  /** That is exactly when the durable journal is still true of the objects as they are. */
  lemma DurableHoldsIffKept(es: seq<Entry>, durable: Option<Journal>, anchor: seq<ObjectState>,
                            objects: seq<ObjectState>, journal: Option<Journal>)
    requires Holds(es, anchor, durable) && Holds(es, objects, journal)
    ensures Holds(es, objects, durable) <==> Kept(durable, anchor, objects)
  {
  }

  /** `d` is the journal that was replaced by `journal`. */
  predicate Behind(d: Option<Journal>, journal: Option<Journal>) {
    match journal
    case None => false
    case Some(j) =>
      match d
      case None => j.direction.Apply? && j.phase.Pending? && Current(j.progress) == 0
      case Some(p) =>
        if p.direction == j.direction then
          p.phase.Pending? &&
              (if j.phase.Done? then p.progress == j.progress else Current(j.progress) == Current(p.progress) + 1)
        else p.phase.Done? && j.phase.Pending? && Current(j.progress) == 0
  }

  /** `d` is a journal of the run that goes on from `start`, not one from before it. */
  predicate Since(start: Journal, d: Option<Journal>) {
    d.Some? && d.value.direction == start.direction && Current(start.progress) <= Current(d.value.progress)
  }

  /** While the durable journal is one behind, mutating the object the journal in force points at makes it false. */
  lemma MutationExposes(es: seq<Entry>, objects: seq<ObjectState>, d: Option<Journal>, j: Journal)
    requires Holds(es, objects, d) && Holds(es, objects, Some(j)) && Behind(d, Some(j)) && j.phase.Pending?
    requires Current(j.progress) < |es| && Distinct(es, |es|)
    requires objects[Current(j.progress)] == Pre(es[Current(j.progress)], j.direction)
    ensures var k := Current(j.progress); !Holds(es, objects[k := Post(es[k], j.direction)], d)
  {
    var k := Current(j.progress);
    var mutated := objects[k := Post(es[k], j.direction)];
    assert es[k].before != es[k].after && mutated[k] != objects[k];
    if Holds(es, mutated, d) {
      DurableHoldsIffKept(es, d, objects, mutated, d);
      assert false;
    }
  }

  // ---- The world ---------------------------------------------------------------------------

  /** What happens at the n-th interaction with the world. `applied` says whether a failing mutation took effect
      anyway. */
  datatype Event = Event(ok: bool, applied: bool, writeback: bool)

  ghost predicate FaultFree(env: nat -> Event, from: nat) {
    forall i | from <= i :: env(i).ok
  }

  ghost predicate Fine(env: nat -> Event, from: nat, to: nat) {
    forall i | from <= i < to :: env(i).ok
  }

  /** The first fault from `from` on comes after `n` interactions. */
  ghost predicate FaultAfter(env: nat -> Event, from: nat, n: nat) {
    Fine(env, from, from + n) && !env(from + n).ok
  }

  ghost predicate NoWriteback(env: nat -> Event) {
    forall i: nat :: !env(i).writeback
  }

  function DirectionOf(inverse: bool): Direction { if inverse then Inverse else Apply }

  datatype Outcome = Completed | Refused | Interrupted

  /** One adapter call: what the object was, and the journal in force. */
  datatype Mutation = Mutation(index: nat, seen: ObjectState, journal: Option<Journal>)

  /** Every mutation finds its object exactly at pre, with a pending journal pointing at it. */
  predicate Orderly(es: seq<Entry>, m: Mutation) {
    && m.journal.Some? && m.journal.value.phase.Pending? && m.index < |es|
    && Current(m.journal.value.progress) == m.index
    && m.seen == Pre(es[m.index], m.journal.value.direction)
  }

  /** The journal once object `i` is recorded. */
  function RecordedAt(j: Journal, i: nat): Journal
    requires i < |j.progress|
  {
    j.(progress := j.progress[i := true])
  }

  /** The journal a run in direction `d` works under: its own pending one, or a blank one. */
  function StartOf(journal: Option<Journal>, d: Direction, n: nat): Journal {
    if journal.Some? && journal.value.direction == d then journal.value else Journal(d, Pending, Blank(n))
  }

  // Interactions: reading the journal, one comparison, one hook, one mutation, and those of one record.
  const READ := 1
  const INSPECT := 1
  const HOOK := 1
  const MUTATE := 1
  const RECORD := 5

  // An iteration up to its mutation, one that passes a recorded object, and what follows a mutation up to the last
  // interaction of recording it.
  const TO_MUTATE := INSPECT + HOOK
  const TO_PASS := TO_MUTATE + HOOK + INSPECT + HOOK
  const TO_RECORDED := MUTATE + HOOK + INSPECT + RECORD - 1
  // From the last interaction of recording an intent to the first mutation.
  const FROM_INTENT := 1 + TO_MUTATE

  /** The interactions of recording a new intent. */
  function ToBegin(journal: Option<Journal>): nat {
    (if journal.Some? then INSPECT else 0) + HOOK + RECORD
  }

  /** The interactions of a run before its first mutation. */
  function BeforeMutation(journal: Option<Journal>, d: Direction): nat {
    if journal.Some? && journal.value.direction == d
    then READ + INSPECT + TO_PASS * Current(journal.value.progress) + TO_MUTATE
    else READ + ToBegin(journal) + TO_MUTATE
  }

  /** A run in direction `d` that will find its next object at pre and mutate it, if nothing fails before. */
  predicate WillMutate(es: seq<Entry>, objects: seq<ObjectState>, journal: Option<Journal>, leftover: bool,
                       d: Direction) {
    && |objects| == |es|
    && !leftover && Startable(journal, d)
    && (journal.Some? && journal.value.direction == d ==> journal.value.phase.Pending?)
    && var k := ResumeAt(journal, d);
       k < |es| && Distinct(es, k) && objects[k] == Pre(es[k], d)
  }

  /** A pending journal that has recorded an entry whose two states coincide. */
  predicate Stuck(es: seq<Entry>, journal: Option<Journal>) {
    && journal.Some? && journal.value.phase.Pending? && Current(journal.value.progress) <= |es|
    && !Distinct(es, Current(journal.value.progress))
  }

  /** What every later run refuses: a leftover temporary, a recorded entry whose states coincide, a false journal. */
  predicate Halted(es: seq<Entry>, objects: seq<ObjectState>, journal: Option<Journal>, leftover: bool) {
    leftover || Stuck(es, journal) || !Holds(es, objects, journal)
  }

  /** A pending journal whose object in line is still at pre. */
  predicate Exposed(es: seq<Entry>, objects: seq<ObjectState>, journal: Option<Journal>) {
    && journal.Some? && journal.value.phase.Pending?
    && var k := Current(journal.value.progress);
       k < |es| && k < |objects| && objects[k] == Pre(es[k], journal.value.direction)
  }

  /** An object has been mutated once if it has left the pre-state of the journal's direction, else never. */
  ghost predicate MutatedOnce(es: seq<Entry>, objects: seq<ObjectState>, journal: Option<Journal>, touched: seq<nat>) {
    |touched| == |es| == |objects| &&
    (Distinct(es, |es|) ==> forall i | 0 <= i < |es| ::
       touched[i] == if journal.Some? && objects[i] == Post(es[i], journal.value.direction) then 1 else 0)
  }

  lemma MutationKeepsCount(es: seq<Entry>, objects: seq<ObjectState>, j: Journal, touched: seq<nat>, i: nat)
    requires i < |es| && MutatedOnce(es, objects, Some(j), touched) && objects[i] == Pre(es[i], j.direction)
    ensures MutatedOnce(es, objects[i := Post(es[i], j.direction)], Some(j),
                        if objects[i := Post(es[i], j.direction)] == objects then touched
                        else touched[i := touched[i] + 1])
  {
  }

  lemma RecordKeepsCount(es: seq<Entry>, objects: seq<ObjectState>, j: Journal, next: Journal, touched: seq<nat>)
    requires MutatedOnce(es, objects, Some(j), touched) && j.direction == next.direction
    ensures MutatedOnce(es, objects, Some(next), touched)
  {
  }

  lemma LaterFault(env: nat -> Event, from: nat, m: nat, n: nat)
    requires m <= n
    ensures FaultAfter(env, from, n) <==> Fine(env, from, from + m) && FaultAfter(env, from + m, n - m)
  {
  }

  lemma EarlierFault(env: nat -> Event, from: nat, m: nat, n: nat)
    requires 0 < m < n
    ensures FaultAfter(env, from, n) ==> Fine(env, from + 1, from + 1 + m) && !FaultAfter(env, from, m)
  {
  }

  lemma FineJoined(env: nat -> Event, from: nat, middle: nat, to: nat)
    requires from <= middle <= to && Fine(env, from, middle)
    ensures Fine(env, middle, to) ==> Fine(env, from, to)
  {
  }

  /** The interactions up to the last of a record, before and within it. */
  lemma FaultInRecord(env: nat -> Event, from: nat, n: nat)
    requires n > RECORD
    ensures FaultAfter(env, from, n - 1) ==>
              Fine(env, from, from + n - RECORD) && FaultAfter(env, from + n - RECORD, RECORD - 1)
    ensures Fine(env, from, from + n) ==>
              Fine(env, from, from + n - RECORD) && Fine(env, from + n - RECORD, from + n)
  {
  }

  /** The interactions of one iteration, after two or three of them. */
  lemma IterationFaults(env: nat -> Event, from: nat)
    ensures FaultAfter(env, from, 9) ==> Fine(env, from, from + 3) && FaultAfter(env, from + 3, 6)
    ensures Fine(env, from, from + 5) ==> Fine(env, from, from + 2) && Fine(env, from + 2, from + 5)
    ensures Fine(env, from, from + 11) ==>
              Fine(env, from, from + 3) && Fine(env, from + 3, from + 11) && Fine(env, from + 2, from + 10)
  {
  }

  /** The first three interactions of one iteration. */
  lemma MutateFaults(env: nat -> Event, from: nat)
    ensures FaultAfter(env, from, 2) ==> env(from).ok && env(from + 1).ok && !env(from + 2).ok
    ensures Fine(env, from, from + 2) <==> env(from).ok && env(from + 1).ok
    ensures Fine(env, from, from + 3) <==> env(from).ok && env(from + 1).ok && env(from + 2).ok
  {
  }

  /** The others: two, those of the record if there is one, and one more. */
  lemma ConfirmFaults(env: nat -> Event, from: nat)
    ensures FaultAfter(env, from, 6) ==> env(from).ok && env(from + 1).ok && FaultAfter(env, from + 2, 4)
    ensures Fine(env, from, from + 3) <==> env(from).ok && env(from + 1).ok && env(from + 2).ok
    ensures Fine(env, from, from + 8) <==>
            env(from).ok && env(from + 1).ok && Fine(env, from + 2, from + 7) && env(from + 7).ok
  {
  }

  class Fixture {
    const entries: seq<Entry>
    const env: nat -> Event
    var clock: nat
    var objects: seq<ObjectState>
    // The journal as read now, and as it would be read after a power loss.
    var journal: Option<Journal>
    var durable: Option<Journal>
    // Whether the temporary of an unfinished replacement exists.
    var leftover: bool
    ghost var mutations: seq<Mutation>
    // Mutations that changed an object, per object, since the current journal's direction began.
    ghost var touched: seq<nat>
    // The objects when the durable journal was last written.
    var anchor: seq<ObjectState>

    ghost predicate Valid()
      reads this
    {
      |entries| > 0 && Holds(entries, objects, journal) && Holds(entries, anchor, durable)
    }

    /** What the code finds: any objects, and no journal or one the reader accepts. */
    ghost predicate Readable()
      reads this
    {
      |entries| > 0 && |objects| == |entries| && (journal.Some? ==> WellFormed(journal.value, |entries|))
    }

    /** A true journal with a true durable one behind it, or one that is false of the objects. */
    ghost predicate Sound()
      reads this
    {
      Valid() || (Readable() && !Holds(entries, objects, journal))
    }

    ghost predicate Counted()
      reads this
    {
      MutatedOnce(entries, objects, journal, touched)
    }

    constructor (entries: seq<Entry>, env: nat -> Event)
      requires |entries| > 0
      ensures Valid() && Counted() && this.entries == entries && this.env == env
      ensures journal == durable == None && !leftover && mutations == [] && clock == 0
      ensures AllAt(entries, objects, Inverse)
    {
      this.entries, this.env := entries, env;
      clock, journal, durable, leftover := 0, None, None, false;
      objects := seq(|entries|, i requires 0 <= i < |entries| => entries[i].before);
      anchor := seq(|entries|, i requires 0 <= i < |entries| => entries[i].before);
      mutations := [];
      touched := seq(|entries|, _ => 0);
    }

    /** A hook, an observation or a system call with no effect on the modelled state; the kernel may write back. */
    method Step() returns (ok: bool)
      requires Sound()
      modifies this`clock, this`durable, this`anchor
      ensures Sound() && (old(Valid()) ==> Valid()) && clock == old(clock) + 1 && ok == env(old(clock)).ok
      ensures durable == old(durable) || durable == journal
      ensures NoWriteback(env) ==> durable == old(durable)
    {
      var e := env(clock);
      clock := clock + 1;
      ok := e.ok;
      if e.writeback {
        durable, anchor := journal, objects;
      }
    }

    /** A sync of the journal's directory, which a caller may make before a run; the code itself does not. */
    method SyncDirectory() returns (ok: bool)
      requires Sound()
      modifies this`clock, this`durable, this`anchor
      ensures Sound() && (old(Valid()) ==> Valid()) && clock == old(clock) + 1 && ok == env(old(clock)).ok
      ensures durable == old(durable) || durable == journal
      ensures ok ==> durable == journal
    {
      ok := Step();
      if ok {
        durable, anchor := journal, objects;
      }
    }

    /** A power loss: the durable journal is what is found, with or without a temporary. It leaves a true journal
        exactly when nothing but the object the durable journal points at has changed since that was written. */
    method LosePower(temporary: bool)
      requires Sound() && (Valid() || durable == journal)
      modifies this`journal, this`leftover
      ensures Sound() && journal == durable == old(durable) && leftover == temporary
      ensures old(Valid()) ==> (Valid() <==> Kept(durable, anchor, objects))
      ensures Valid() <==> old(Valid() && Holds(entries, objects, durable))
    {
      if Valid() {
        DurableHoldsIffKept(entries, durable, anchor, objects, journal);
      }
      journal, leftover := durable, temporary;
    }

    /** The comparison of every object with what the journal allows. */
    method Inspect(j: Journal) returns (ok: bool)
      requires Sound() && |j.progress| == |entries|
      modifies this`clock, this`durable, this`anchor
      ensures Sound() && (old(Valid()) ==> Valid()) && clock == old(clock) + 1
      ensures durable == old(durable) || durable == journal
      ensures NoWriteback(env) ==> durable == old(durable)
      ensures ok <==> env(old(clock)).ok && Matches(entries, objects, j)
    {
      hide Holds, WellFormed;
      SoundSize();
      ok := Step();
      if !ok { return; }
      var current := 0;
      while current < |j.progress| && j.progress[current]
        invariant current <= |j.progress|
        invariant forall i | 0 <= i < current :: j.progress[i]
      {
        current := current + 1;
      }
      PrefixCurrent(j.progress, current);
      for i := 0 to |entries|
        invariant forall k | 0 <= k < i ::
          if j.progress[k] || j.phase.Done? then objects[k] == Post(entries[k], j.direction)
          else
            || objects[k] == Pre(entries[k], j.direction)
            || (k == current && objects[k] == Post(entries[k], j.direction))
      {
        var pre, post := Pre(entries[i], j.direction), Post(entries[i], j.direction);
        if j.progress[i] || j.phase.Done? {
          if objects[i] != post {
            return false;
          }
        } else if objects[i] != pre && !(i == current && objects[i] == post) {
          return false;
        }
      }
    }

    /** Creates, writes and syncs the temporary. */
    method WriteTemporary() returns (ok: bool)
      requires Valid() && !leftover
      modifies this`clock, this`durable, this`anchor, this`leftover
      ensures old(clock) <= clock && Valid()
      ensures durable == old(durable) || durable == journal
      ensures NoWriteback(env) ==> durable == old(durable)
      ensures ok ==> leftover && clock == old(clock) + 3 && Fine(env, old(clock), clock)
      ensures Fine(env, old(clock), old(clock) + 3) ==> ok
    {
      ok := Step();
      if !ok { return; }
      leftover := true;
      ok := Step();
      if !ok { return; }
      ok := Step();
    }

    /** Replaces the journal: create, write and sync a temporary, rename it, sync the directory. */
    method Record(j: Journal) returns (ok: bool)
      requires Valid() && Holds(entries, objects, Some(j))
      modifies this`clock, this`journal, this`durable, this`anchor, this`leftover, this`touched
      ensures old(clock) <= clock
      ensures Valid() && (journal == old(journal) || journal == Some(j))
      ensures ok ==>
                journal == durable == Some(j) && !leftover && clock == old(clock) + 5 && Fine(env, old(clock), clock)
      ensures durable in {old(durable), old(journal), Some(j)}
      ensures durable == old(durable) || durable == journal || durable == old(journal)
      ensures old(leftover) ==> !ok && leftover && journal == old(journal)
      ensures !old(leftover) && Fine(env, old(clock), old(clock) + 5) ==> ok
      // Up to the rename the new journal is not there, and from then on it is.
      ensures !old(leftover) && NoWriteback(env) && FaultAfter(env, old(clock), 4) ==>
                journal == Some(j) && !leftover && durable == old(durable) && clock == old(clock) + 5
      ensures touched == if journal == old(journal) || Current(j.progress) > 0 || j.phase.Done? then old(touched)
                         else seq(|entries|, _ => 0)
    {
      hide Holds, WellFormed;
      if leftover {
        return false;
      }
      ok := WriteTemporary();
      if !ok { return; }
      ok := Step();
      if !ok { return; }
      if journal != Some(j) && Current(j.progress) == 0 && j.phase.Pending? {
        touched := seq(|entries|, _ => 0);
      }
      journal, leftover := Some(j), false;
      ok := Step();
      if ok {
        durable, anchor := journal, objects;
      }
    }

    /** The adapter's mutation; on failure the world decides whether it took effect. */
    method Mutate(i: nat, cur: Journal) returns (ok: bool)
      requires Valid() && journal == Some(cur) && cur.phase.Pending? && i < |entries| && i == Current(cur.progress)
      requires objects[i] == Pre(entries[i], cur.direction)
      modifies this`clock, this`durable, this`anchor, this`objects, this`mutations, this`touched
      ensures Valid() && clock == old(clock) + 1 && ok == env(old(clock)).ok
      ensures durable == old(durable) || durable == journal
      ensures NoWriteback(env) ==> durable == old(durable)
      ensures mutations == old(mutations) + [Mutation(i, old(objects[i]), journal)]
      ensures objects == old(objects) || objects == old(objects)[i := Post(entries[i], cur.direction)]
      ensures ok || env(old(clock)).applied ==> objects == old(objects)[i := Post(entries[i], cur.direction)]
      ensures old(Counted()) ==> Counted()
      ensures Orderly(entries, mutations[|mutations| - 1])
    {
      MutationKeeps(entries, objects, cur, i);
      if Counted() {
        MutationKeepsCount(entries, objects, cur, touched, i);
      }
      hide Holds, MutatedOnce;
      var e := env(clock);
      mutations := mutations + [Mutation(i, objects[i], journal)];
      if e.ok || e.applied {
        if i < |touched| && objects[i := Post(entries[i], cur.direction)] != objects {
          touched := touched[i := touched[i] + 1];
        }
        objects := objects[i := Post(entries[i], cur.direction)];
      }
      ok := Step();
    }

    /** The mutation of one iteration, made only while the object is still at pre. */
    method MutateIfPre(i: nat, cur: Journal) returns (out: Outcome)
      requires Valid() && journal == Some(cur) && cur.phase.Pending?
      requires i < |entries| && i <= Current(cur.progress)
      modifies this`clock, this`durable, this`anchor, this`objects, this`mutations, this`touched
      ensures old(clock) <= clock
      ensures Valid() && (old(Counted()) ==> Counted())
      ensures old(mutations) <= mutations
      ensures forall m | |old(mutations)| <= m < |mutations| :: Orderly(entries, mutations[m])
      ensures i < Current(cur.progress) ==> mutations == old(mutations)
      ensures durable == old(durable) || durable == journal
      ensures NoWriteback(env) ==> durable == old(durable)
      ensures objects == old(objects) ||
              (i == Current(cur.progress) && old(objects[i]) == Pre(entries[i], cur.direction) &&
               objects == old(objects)[i := Post(entries[i], cur.direction)])
      ensures out.Completed? ==>
                && objects[i] == Post(entries[i], cur.direction)
                && clock == old(clock) + (if old(objects[i]) == Pre(entries[i], cur.direction) then 3 else 2)
                && Fine(env, old(clock), clock)
                && (entries[i].before != entries[i].after || i == Current(cur.progress))
      ensures Fine(env, old(clock), old(clock) + (if i < Current(cur.progress) then 2 else 3)) ==>
                out == if i < Current(cur.progress) && entries[i].before == entries[i].after then Refused else Completed
      // A mutation that fails may have taken effect.
      ensures i == Current(cur.progress) && old(objects[i]) == Pre(entries[i], cur.direction) &&
              FaultAfter(env, old(clock), 2) && env(old(clock) + 2).applied ==>
                out.Interrupted? && objects == old(objects)[i := Post(entries[i], cur.direction)]
    {
      HeldFacts(entries, objects, journal);
      RecordedAtPost(entries, objects, cur, i);
      MutateFaults(env, clock);
      hide Holds, Matches, WellFormed, MutatedOnce, Fine, FaultAfter, Orderly;
      var d := cur.direction;
      var ok := Inspect(cur);
      if !ok { return Interrupted; }
      ok := Step();
      if !ok { return Interrupted; }
      if objects[i] == Pre(entries[i], d) {
        if cur.progress[i] {
          return Refused;
        }
        ok := Mutate(i, cur);
        return if ok then Completed else Interrupted;
      }
      out := Completed;
    }

    /** Records object `i`, which is at post and next in line. */
    method RecordProgress(i: nat, cur: Journal) returns (ok: bool, next: Journal)
      requires Valid() && !leftover && journal == Some(cur) && cur.phase.Pending?
      requires i < |entries| && i == Current(cur.progress) && objects[i] == Post(entries[i], cur.direction)
      modifies this`clock, this`journal, this`durable, this`anchor, this`leftover, this`touched
      ensures old(clock) <= clock && i < |cur.progress| && next == RecordedAt(cur, i) && Current(next.progress) == i + 1
      ensures Valid() && (old(Counted()) ==> Counted())
      ensures durable == old(durable) || durable == Some(cur) || durable == journal
      ensures journal == Some(cur) || journal == Some(next)
      ensures ok ==>
                journal == durable == Some(next) && !leftover && clock == old(clock) + 5 && Fine(env, old(clock), clock)
      ensures Fine(env, old(clock), old(clock) + 5) ==> ok
      ensures NoWriteback(env) && FaultAfter(env, old(clock), 4) ==>
                !ok && journal == Some(next) && durable == old(durable) && !leftover && clock == old(clock) + 5
    {
      HeldFacts(entries, objects, journal);
      ProgressKeeps(entries, objects, cur, i);
      next := RecordedAt(cur, i);
      hide Holds, MutatedOnce, Matches, WellFormed;
      if Counted() {
        RecordKeepsCount(entries, objects, cur, next, touched);
      }
      ok := Record(next);
    }

    /** The hook after a mutation, and the comparison that follows it. */
    method HookAndInspect(j: Journal) returns (ok: bool)
      requires Valid() && journal == Some(j) && |j.progress| == |entries|
      modifies this`clock, this`durable, this`anchor
      ensures Valid() && old(clock) <= clock && (ok ==> clock == old(clock) + 2)
      ensures durable == old(durable) || durable == journal
      ensures NoWriteback(env) ==> durable == old(durable)
      ensures ok <==> env(old(clock)).ok && env(old(clock) + 1).ok
    {
      HeldFacts(entries, objects, journal);
      hide Holds, Matches;
      ok := Step();
      if !ok { return; }
      ok := Inspect(j);
    }

    /** The rest of one iteration, with the object at post: inspect, and record the progress if it is new. */
    method Confirm(i: nat, cur: Journal) returns (out: Outcome, next: Journal)
      requires Valid() && !leftover && journal == Some(cur) && cur.phase.Pending?
      requires i < |entries| && i <= Current(cur.progress) && objects[i] == Post(entries[i], cur.direction)
      modifies this`clock, this`journal, this`durable, this`anchor, this`leftover, this`touched
      ensures old(clock) <= clock
      ensures Valid() && (old(Counted()) ==> Counted()) && !out.Refused?
      ensures durable == old(durable) || durable == Some(cur) || durable == journal
      ensures journal == Some(cur) ||
              (i == Current(cur.progress) < |cur.progress| && journal == Some(RecordedAt(cur, i)))
      ensures i < Current(cur.progress) ==> journal == Some(cur) && !leftover
      ensures i < Current(cur.progress) && NoWriteback(env) ==> durable == old(durable)
      ensures out.Completed? ==>
                && journal == Some(next) && !leftover && Fine(env, old(clock), clock)
                && (if i < Current(cur.progress) then next == cur && clock == old(clock) + 3
                    else
                      i < |cur.progress| && next == RecordedAt(cur, i) && durable == journal && clock == old(clock) + 8)
      ensures Fine(env, old(clock), old(clock) + (if i < Current(cur.progress) then 3 else 8)) ==> out.Completed?
      ensures i == Current(cur.progress) < |cur.progress| && NoWriteback(env) && FaultAfter(env, old(clock), 6) ==>
                out.Interrupted? && journal == Some(RecordedAt(cur, i)) && durable == old(durable) && !leftover &&
                clock == old(clock) + 7
    {
      next := cur;
      HeldFacts(entries, objects, journal);
      RecordedAtPost(entries, objects, cur, i);
      ConfirmFaults(env, clock);
      hide Holds, MutatedOnce, Matches, WellFormed, Fine, FaultAfter;
      var ok := HookAndInspect(cur);
      if !ok { return Interrupted, next; }
      if !cur.progress[i] {
        ok, next := RecordProgress(i, cur);
        if !ok { return Interrupted, next; }
      }
      ok := Step();
      out := if ok then Completed else Interrupted;
    }

    /** One iteration of the main loop: inspect, mutate if the object is still at pre, inspect, record the progress. */
    method Advance(i: nat, cur: Journal) returns (out: Outcome, next: Journal)
      requires Valid() && !leftover && journal == Some(cur) && cur.phase.Pending?
      requires i < |entries| && i <= Current(cur.progress)
      modifies this
      ensures old(clock) <= clock
      ensures Valid() && (old(Counted()) ==> Counted()) && Holds(entries, objects, Some(cur))
      ensures old(mutations) <= mutations
      ensures forall m | |old(mutations)| <= m < |mutations| :: Orderly(entries, mutations[m])
      ensures durable == old(durable) || (Since(cur, durable) && Holds(entries, objects, durable))
      ensures old(journal == durable) ==>
                Holds(entries, objects, durable) && (journal == durable || Behind(durable, journal))
      ensures i < Current(cur.progress) ==> journal == Some(cur) && !leftover && mutations == old(mutations)
      ensures i < Current(cur.progress) ==> durable == old(durable) || durable == journal
      ensures i < Current(cur.progress) && NoWriteback(env) ==> durable == old(durable)
      ensures objects == old(objects) ||
              (i == Current(cur.progress) && old(objects[i]) == Pre(entries[i], cur.direction) &&
               objects == old(objects)[i := Post(entries[i], cur.direction)])
      ensures out.Completed? ==>
                && journal == Some(next) && !leftover && Fine(env, old(clock), clock)
                && next.direction == cur.direction && next.phase.Pending?
                && Current(next.progress) == (if i == Current(cur.progress) then i + 1 else Current(cur.progress))
                && (if i < Current(cur.progress) then next == cur && objects == old(objects) else durable == journal)
                && (entries[i].before != entries[i].after || i == Current(cur.progress))
      ensures out.Completed? && i < Current(cur.progress) ==> clock == old(clock) + 5
      ensures out.Completed? && i == Current(cur.progress) ==> old(clock) + 10 <= clock
      ensures Fine(env, old(clock), old(clock) + (if i < Current(cur.progress) then 5 else 11)) ==>
                out == if i < Current(cur.progress) && entries[i].before == entries[i].after then Refused else Completed
      ensures i == Current(cur.progress) && old(objects[i]) == Pre(entries[i], cur.direction) && NoWriteback(env) ==>
                && (FaultAfter(env, old(clock), 2) && env(old(clock) + 2).applied ==>
                      Left(old(objects), old(durable), cur, i, false) && out.Interrupted?)
                && (FaultAfter(env, old(clock), 9) ==>
                      Left(old(objects), old(durable), cur, i, true) && out.Interrupted? && clock == old(clock) + 10)
    {
      next := cur;
      ghost var from := clock;
      IterationFaults(env, from);
      hide Fine, FaultAfter, MutatedOnce, Orderly;
      out := MutateIfPre(i, cur);
      CurrentHolds(entries, old(objects), objects, cur, i);
      if !out.Completed? {
        return;
      }
      ghost var mutated := clock;
      hide Holds;
      out, next := Confirm(i, cur);
      FineJoined(env, from, mutated, clock);
    }

    /** One turn of the loop. */
    method Turn(i: nat, start: Journal, cur: Journal, ghost from: nat, ghost before: seq<ObjectState>,
                ghost written: Option<Journal>) returns (out: Outcome, next: Journal)
      requires Going(i, start, cur, from, before, written) && i < |entries|
      modifies this
      ensures old(clock) <= clock
      ensures Valid() && (old(Counted()) ==> Counted())
      ensures old(mutations) <= mutations
      ensures forall m | |old(mutations)| <= m < |mutations| :: Orderly(entries, mutations[m])
      ensures i < Current(start.progress) ==> mutations == old(mutations)
      ensures if out.Completed? then Going(i + 1, start, next, from, before, written)
              else Ended(start, from, before, written)
      ensures FaultFree(env, old(clock)) ==>
                out == if i < Current(start.progress) && entries[i].before == entries[i].after then Refused
                       else Completed
    {
      hide Holds, MutatedOnce, Orderly, Behind, Valid, Counted;
      out, next := Advance(i, cur);
    }

    /** The loop has come to object `i`: until the first unrecorded one nothing has changed, and after it the journal is
        durable with everything below `i`. */
    ghost predicate Going(i: nat, start: Journal, cur: Journal, from: nat, before: seq<ObjectState>,
                          written: Option<Journal>)
      reads this
    {
      var k := Current(start.progress);
      && Valid() && !leftover && journal == Some(cur) && cur.direction == start.direction && cur.phase.Pending?
      && i <= |entries| == |before| && from <= clock && Fine(env, from, clock) && Holds(entries, before, Some(start))
      && if i <= k then
           && cur == start && objects == before && clock == from + TO_PASS * i && Distinct(entries, i)
           && (durable == written || durable == journal) && (NoWriteback(env) ==> durable == written)
         else
           Current(cur.progress) == i && durable == journal &&
               from + TO_PASS * k + TO_MUTATE + TO_RECORDED < clock && Distinct(entries, k)
    }

    /** How a loop may end, whether or not it was through. */
    ghost predicate Ended(start: Journal, from: nat, before: seq<ObjectState>, written: Option<Journal>)
      reads this
    {
      && Holds(entries, before, Some(start))
      && (durable == written || (Since(start, durable) && Holds(entries, objects, durable)))
      && (durable == written && !Since(start, durable) ==> OneMutated(before, start))
      && (written == Some(start) ==>
            Holds(entries, objects, durable) && (journal == durable || Behind(durable, journal)))
      && (Stuck(entries, Some(start)) ==>
            objects == before && journal == Some(start) && !leftover && (durable == written || durable == journal))
      && Crashed(start, from, before, written)
    }

    /** What a first fault leaves at the two points that matter: at the first mutation, and at the last interaction of
        recording it. */
    ghost predicate Crashed(start: Journal, from: nat, before: seq<ObjectState>, written: Option<Journal>)
      reads this
    {
      var k := Current(start.progress);
      var at := TO_PASS * k + TO_MUTATE;
      k < |entries| == |before| && Distinct(entries, k)
      && before[k] == Pre(entries[k], start.direction) && NoWriteback(env) ==>
        && (FaultAfter(env, from, at) && env(from + at).applied ==> Left(before, written, start, k, false))
        && (FaultAfter(env, from, at + TO_RECORDED) ==>
              Left(before, written, start, k, true) && clock == from + at + TO_RECORDED + 1)
    }

    /** What is left of an iteration whose object is mutated: its progress is recorded in the visible journal, or not
        yet. */
    ghost predicate Left(before: seq<ObjectState>, written: Option<Journal>, cur: Journal, i: nat, recorded: bool)
      reads this
    {
      && i < |cur.progress| && i < |before| && i < |entries|
      && objects == before[i := Post(entries[i], cur.direction)]
      && durable == written && !leftover
      && journal == Some(if recorded then RecordedAt(cur, i) else cur)
    }

    /** The main loop and the completion record. */
    method Proceed(start: Journal) returns (out: Outcome)
      requires Valid() && !leftover && journal == Some(start) && start.phase.Pending?
      modifies this
      ensures old(clock) <= clock
      ensures Valid() && (old(Counted()) ==> Counted())
      ensures old(mutations) <= mutations
      ensures forall m | |old(mutations)| <= m < |mutations| :: Orderly(entries, mutations[m])
      ensures Ended(start, old(clock), old(objects), old(durable))
      ensures Stuck(entries, Some(start)) ==> !out.Completed? && mutations == old(mutations)
      ensures out.Completed? ==>
                && AllAt(entries, objects, start.direction) && !leftover && journal == durable
                && journal.Some? && journal.value.direction == start.direction && journal.value.phase.Done?
      ensures FaultFree(env, old(clock)) ==>
                out == if Distinct(entries, Current(start.progress)) then Completed else Refused
    {
      HeldFacts(entries, objects, journal);
      hide Holds, Matches, WellFormed, Orderly, AllAt, MutatedOnce, Ended, Left, Behind;
      var cur := start;
      for i := 0 to |entries|
        invariant Going(i, start, cur, old(clock), old(objects), old(durable))
        invariant old(Counted()) ==> Counted()
        invariant old(mutations) <= mutations && (i <= Current(start.progress) ==> mutations == old(mutations))
        invariant forall m | |old(mutations)| <= m < |mutations| :: Orderly(entries, mutations[m])
      {
        out, cur := Turn(i, start, cur, old(clock), old(objects), old(durable));
        if !out.Completed? {
          return;
        }
      }
      out := Complete(start, cur, old(clock), old(objects), old(durable));
    }

    /** At most the object `start` points at has changed, from pre to post. */
    ghost predicate OneMutated(before: seq<ObjectState>, start: Journal)
      reads this
    {
      var k := Current(start.progress);
      || objects == before
      || (k < |entries| && k < |before| && before[k] == Pre(entries[k], start.direction) &&
          objects == before[k := Post(entries[k], start.direction)])
    }

    method Complete(ghost start: Journal, cur: Journal, ghost from: nat, ghost before: seq<ObjectState>,
                    ghost written: Option<Journal>) returns (out: Outcome)
      requires Going(|entries|, start, cur, from, before, written)
      modifies this`clock, this`journal, this`durable, this`anchor, this`leftover, this`touched
      ensures old(clock) <= clock
      ensures Valid() && (old(Counted()) ==> Counted())
      ensures Ended(start, from, before, written)
      ensures out.Completed? ==>
                && AllAt(entries, objects, cur.direction) && !leftover && journal == durable
                && journal == Some(cur.(phase := Done))
      ensures FaultFree(env, old(clock)) ==> out.Completed?
    {
      PassedFault(start, cur, from, before, written);
      hide MutatedOnce, FaultAfter, Left;
      out := RecordDone(cur);
    }

    method RecordDone(cur: Journal) returns (out: Outcome)
      requires Valid() && !leftover && journal == Some(cur) && cur.phase.Pending? && Current(cur.progress) == |entries|
      modifies this`clock, this`journal, this`durable, this`anchor, this`leftover, this`touched
      ensures old(clock) <= clock
      ensures Valid() && (old(Counted()) ==> Counted()) && Holds(entries, objects, Some(cur))
      ensures durable == old(durable) || durable == Some(cur) || durable == journal
      ensures journal == Some(cur) || journal == Some(cur.(phase := Done))
      ensures out.Completed? ==>
                && AllAt(entries, objects, cur.direction) && !leftover && journal == durable
                && journal == Some(cur.(phase := Done))
      ensures FaultFree(env, old(clock)) ==> out.Completed?
    {
      HeldFacts(entries, objects, journal);
      if Counted() {
        RecordKeepsCount(entries, objects, cur, cur.(phase := Done), touched);
      }
      hide MutatedOnce;
      var ok := Inspect(cur);
      if !ok { return Interrupted; }
      ok := Step();
      if !ok { return Interrupted; }
      ok := Record(cur.(phase := Done));
      out := if ok then Completed else Interrupted;
    }

    /** The comparisons before a new intent: the previous direction is complete and every object is at pre. They
        accept a true journal and no other. */
    method Compare(cur: Journal) returns (ok: bool)
      requires Sound() && Startable(journal, cur.direction)
      requires journal.Some? ==> journal.value.direction != cur.direction
      modifies this`clock, this`durable, this`anchor
      ensures old(clock) <= clock
      ensures Sound() && (old(Valid()) ==> Valid())
      ensures durable == old(durable) || durable == journal
      ensures NoWriteback(env) ==> durable == old(durable)
      ensures ok ==> Valid() && clock == old(clock) + ToBegin(journal) - RECORD && Fine(env, old(clock), clock)
      ensures old(Valid()) && Fine(env, old(clock), old(clock) + ToBegin(journal) - RECORD) ==> ok
    {
      if journal.Some? {
        ok := Inspect(journal.value);
        if !ok { return; }
      }
      ok := Step();
      if !ok { return; }
      for i := 0 to |entries|
        invariant forall k | 0 <= k < i :: objects[k] == Pre(entries[k], cur.direction)
      {
        if objects[i] != Pre(entries[i], cur.direction) {
          NotAtPre(entries, objects, journal, cur, i);
          return false;
        }
      }
      assert Holds(entries, objects, journal);
    }

    /** A new intent: the previous direction is complete, every object is at pre, and the blank journal is recorded. A
        journal that is false, or changed objects without one, is refused. */
    method Begin(cur: Journal) returns (ok: bool)
      requires Sound() && !leftover && cur == Journal(cur.direction, Pending, Blank(|entries|))
      requires Startable(journal, cur.direction) && (journal.Some? ==> journal.value.direction != cur.direction)
      modifies this`clock, this`journal, this`durable, this`anchor, this`leftover, this`touched
      ensures old(clock) <= clock
      ensures Sound() && (old(Valid()) ==> Valid()) && (old(Counted()) ==> Counted())
      ensures !old(Valid()) ==>
                !ok && journal == old(journal) && !leftover && (durable == old(durable) || durable == journal)
      ensures old(Valid()) ==> durable == old(durable) || Holds(entries, objects, durable)
      ensures durable in {old(durable), old(journal), Some(cur)} && journal in {old(journal), Some(cur)}
      ensures old(journal == durable) ==> journal == durable || Behind(durable, journal)
      ensures ok ==> journal == durable == Some(cur) && !leftover
      ensures ok ==> clock == old(clock) + ToBegin(old(journal)) && Fine(env, old(clock), clock)
      ensures old(Valid()) && Fine(env, old(clock), old(clock) + ToBegin(old(journal))) ==> ok
      ensures old(Valid()) && NoWriteback(env) && FaultAfter(env, old(clock), ToBegin(old(journal)) - 1) ==>
                !ok && journal == Some(cur) && durable == old(durable) && !leftover &&
                clock == old(clock) + ToBegin(old(journal))
    {
      if Valid() {
        BlankHolds(entries, objects, journal, cur);
      }
      FaultInRecord(env, clock, ToBegin(journal));
      hide Holds, WellFormed, MutatedOnce, Behind, Fine, FaultAfter;
      ghost var from := clock;
      ok := Compare(cur);
      if !ok { return; }
      ghost var compared := clock;
      ok := Record(cur);
      FineJoined(env, from, compared, clock);
    }

    /** The whole run in one direction: start it, or resume it where the journal says. */
    method Run(inverse: bool) returns (out: Outcome)
      requires Sound()
      modifies this
      ensures old(clock) <= clock
      // At every possible interruption:
      ensures Sound() && (old(Valid()) ==> Valid()) && (old(Counted()) ==> Counted())
      ensures old(mutations) <= mutations
      ensures forall m | |old(mutations)| <= m < |mutations| :: Orderly(entries, mutations[m])
      // What is durable, and exactly what certain faults leave.
      ensures old(Valid()) ==> DurableAfter(old(journal), old(durable), old(objects))
      ensures old(Valid()) && !old(leftover) ==>
                CrashedRun(DirectionOf(inverse), old(journal), old(durable), old(objects), old(clock))
      ensures out.Completed? ==>
                && AllAt(entries, objects, DirectionOf(inverse)) && !leftover
                && journal.Some? && journal.value.direction == DirectionOf(inverse) && journal.value.phase.Done?
                && (old(journal == durable) ==> journal == durable)
      // Without faults, a run finishes exactly when it can.
      ensures old(Valid()) && FaultFree(env, old(clock)) ==>
                out == if Finishes(entries, old(journal), old(leftover), DirectionOf(inverse)) then Completed
                       else Refused
      // What is halted, and the wrong direction, stops the run before it touches anything, and so stops every later
      // one.
      ensures old(Halted(entries, objects, journal, leftover)) || !Startable(old(journal), DirectionOf(inverse)) ==>
                !out.Completed? && objects == old(objects) && journal == old(journal) && mutations == old(mutations) &&
                leftover == old(leftover) && (durable == old(durable) || durable == journal)
    {
      hide Matches, Orderly, MutatedOnce, WellFormed, Holds, AllAt;
      if Valid() {
        HeldFacts(entries, objects, journal);
      }
      var ok := Step();
      if !ok { return Interrupted; }
      if leftover {
        return Refused;
      }
      var d := DirectionOf(inverse);
      if journal.Some? && journal.value.direction != d && !journal.value.phase.Done? {
        return Refused;
      }
      if inverse && journal.None? {
        return Refused;
      }
      if journal.Some? && journal.value.direction == d {
        out := Resume(journal.value, old(durable), old(clock));
      } else {
        out := Start(Journal(d, Pending, Blank(|entries|)), old(durable), old(clock));
      }
    }

    /** A run that finds its own journal. */
    method Resume(cur: Journal, ghost written: Option<Journal>, ghost from: nat) returns (out: Outcome)
      requires Sound() && !leftover && journal == Some(cur)
      requires durable == written || durable == journal
      requires clock == from + READ && env(from).ok && (NoWriteback(env) ==> durable == written)
      modifies this
      ensures old(clock) <= clock
      ensures Sound() && (old(Valid()) ==> Valid()) && (old(Counted()) ==> Counted())
      ensures old(mutations) <= mutations
      ensures forall m | |old(mutations)| <= m < |mutations| :: Orderly(entries, mutations[m])
      ensures old(Valid()) ==> DurableAfter(old(journal), written, old(objects))
      ensures old(Valid()) ==> CrashedRun(cur.direction, old(journal), written, old(objects), from)
      ensures out.Completed? ==>
                && AllAt(entries, objects, cur.direction) && !leftover
                && journal.Some? && journal.value.direction == cur.direction && journal.value.phase.Done?
                && (written == old(journal) ==> journal == durable)
      ensures old(Valid()) && FaultFree(env, old(clock)) ==>
                out == if cur.phase.Done? || Distinct(entries, Current(cur.progress)) then Completed else Refused
      ensures !old(Valid()) || Stuck(entries, Some(cur)) ==>
                !out.Completed? && objects == old(objects) && journal == old(journal) && mutations == old(mutations) &&
                !leftover && (durable == old(durable) || durable == journal)
    {
      hide MutatedOnce, Orderly, Left, WellFormed, Matches, Holds, OneMutated, Behind;
      InspectDecides(cur);
      var ok := Inspect(cur);
      if !ok { return Interrupted; }
      if cur.phase.Done? {
        return Completed;
      }
      ghost var found, at := durable, clock;
      out := Proceed(cur);
      ResumedDurable(cur, old(objects), written, found, at);
      ResumedCrash(cur, old(objects), written, from);
      ResumedStuck(cur, old(objects), found, at);
    }

    /** A run that begins a direction. */
    method Start(cur: Journal, ghost written: Option<Journal>, ghost from: nat) returns (out: Outcome)
      requires Sound() && !leftover && cur == Journal(cur.direction, Pending, Blank(|entries|))
      requires Startable(journal, cur.direction) && (journal.Some? ==> journal.value.direction != cur.direction)
      requires durable == written || durable == journal
      requires clock == from + READ && env(from).ok && (NoWriteback(env) ==> durable == written)
      modifies this
      ensures old(clock) <= clock
      ensures Sound() && (old(Valid()) ==> Valid()) && (old(Counted()) ==> Counted())
      ensures old(mutations) <= mutations
      ensures forall m | |old(mutations)| <= m < |mutations| :: Orderly(entries, mutations[m])
      ensures old(Valid()) ==> DurableAfter(old(journal), written, old(objects))
      ensures old(Valid()) ==> CrashedRun(cur.direction, old(journal), written, old(objects), from)
      ensures out.Completed? ==>
                && AllAt(entries, objects, cur.direction) && !leftover && journal == durable
                && journal.Some? && journal.value.direction == cur.direction && journal.value.phase.Done?
      ensures old(Valid()) && FaultFree(env, old(clock)) ==> out.Completed?
      ensures !old(Valid()) ==>
                !out.Completed? && objects == old(objects) && journal == old(journal) && mutations == old(mutations) &&
                !leftover && (durable == old(durable) || durable == journal)
    {
      hide Holds, MutatedOnce, Orderly, AllAt, Ended, Behind, Left;
      if Valid() {
        BlankHolds(entries, objects, journal, cur);
      }
      ghost var found, before, at := journal, objects, BeforeMutation(journal, cur.direction);
      EarlierFault(env, from, at - FROM_INTENT, at);
      EarlierFault(env, from, at - FROM_INTENT, at + TO_RECORDED);
      LaterFault(env, from, READ, at - FROM_INTENT);
      var ok := Begin(cur);
      if !ok {
        return Interrupted;
      }
      ghost var begun := clock;
      out := Proceed(cur);
      StartedDurable(cur, before, found, written, begun);
      StartedCrash(cur, before, found, written, from, begun);
    }

    /** The truth of the durable journal after a run from the given one. If the run found its journal durable, it holds
        and is at most one record behind. If it found it one record behind, though still true, it holds exactly when the
        run has made a later journal durable or has changed nothing; and always unless the journal in force was pending
        with its object in line at pre. */
    ghost predicate DurableAfter(found: Option<Journal>, written: Option<Journal>, before: seq<ObjectState>)
      reads this
    {
      && (written == found ==> Holds(entries, objects, durable) && (journal == durable || Behind(durable, journal)))
      && (Distinct(entries, |entries|) && Behind(written, found) && Holds(entries, before, written) ==>
            && (Holds(entries, objects, durable) <==> durable != written || objects == before)
            && (!Exposed(entries, before, found) ==> Holds(entries, objects, durable)))
    }

    /** What a first fault leaves of a run that will mutate: at the mutation, at the last interaction of recording it,
        and at the last interaction of recording the intent. */
    ghost predicate CrashedRun(d: Direction, found: Option<Journal>, written: Option<Journal>, before: seq<ObjectState>,
                               from: nat)
      reads this
    {
      var start := StartOf(found, d, |entries|);
      var resumed := found.Some? && found.value.direction == d;
      var k, at := ResumeAt(found, d), BeforeMutation(found, d);
      WillMutate(entries, before, found, false, d) && NoWriteback(env) ==>
        && (FaultAfter(env, from, at) && env(from + at).applied ==>
              Left(before, if resumed then written else Some(start), start, k, false))
        && (FaultAfter(env, from, at + TO_RECORDED) ==>
              && Left(before, if resumed then written else Some(start), start, k, true)
              && clock == from + at + TO_RECORDED + 1)
        && (!resumed && FaultAfter(env, from, at - FROM_INTENT) ==>
              && objects == before && journal == Some(start) && durable == written && !leftover
              && clock == from + at - FROM_INTENT + 1)
    }

    /** Beyond the first object it mutated, the loop has met no fault before. */
    lemma PassedFault(start: Journal, cur: Journal, from: nat, before: seq<ObjectState>, written: Option<Journal>)
      requires Going(|entries|, start, cur, from, before, written)
      ensures var k := Current(start.progress);
              var at := TO_PASS * k + TO_MUTATE;
              k < |entries| ==> !FaultAfter(env, from, at) && !FaultAfter(env, from, at + TO_RECORDED)
    {
    }

    lemma SoundSize()
      requires Sound()
      ensures |objects| == |entries| > 0
    {
    }

    /** What the comparison decides on a journal the reader accepts. */
    lemma InspectDecides(cur: Journal)
      requires Sound() && journal == Some(cur)
      ensures |cur.progress| == |entries| == |objects| && (Matches(entries, objects, cur) <==> Valid())
      ensures Valid() && cur.phase.Done? ==> AllAt(entries, objects, cur.direction)
    {
    }

    lemma ResumedStuck(start: Journal, before: seq<ObjectState>, found: Option<Journal>, at: nat)
      requires Ended(start, at, before, found)
      ensures Stuck(entries, Some(start)) ==>
                objects == before && journal == Some(start) && !leftover && (durable == found || durable == journal)
    {
    }

    lemma ResumedDurable(start: Journal, before: seq<ObjectState>, written: Option<Journal>, found: Option<Journal>,
                         at: nat)
      requires start.phase.Pending? && Ended(start, at, before, found) && Valid()
      requires found == written || found == Some(start)
      ensures DurableAfter(Some(start), written, before)
    {
      if Distinct(entries, |entries|) && Behind(written, Some(start)) && Holds(entries, before, written) {
        assert !Since(start, written);
        var k := Current(start.progress);
        if durable == written && objects != before {
          assert OneMutated(before, start);
          MutationExposes(entries, before, written, start);
        }
        assert durable != written || objects == before || Exposed(entries, before, Some(start));
      }
    }

    lemma StartedDurable(start: Journal, before: seq<ObjectState>, found: Option<Journal>, written: Option<Journal>,
                         at: nat)
      requires Ended(start, at, before, Some(start))
      requires Startable(found, start.direction) && (found.Some? ==> found.value.direction != start.direction)
      ensures DurableAfter(found, written, before)
    {
    }

    lemma StartedCrash(start: Journal, before: seq<ObjectState>, found: Option<Journal>, written: Option<Journal>,
                       from: nat, at: nat)
      requires start == Journal(start.direction, Pending, Blank(|entries|)) && Ended(start, at, before, Some(start))
      requires found.Some? ==> found.value.direction != start.direction
      requires at == from + BeforeMutation(found, start.direction) - TO_MUTATE && Fine(env, from, at)
      ensures CrashedRun(start.direction, found, written, before, from)
    {
      LaterFault(env, from, at - from, at - from + TO_MUTATE);
      LaterFault(env, from, at - from, at - from + TO_MUTATE + TO_RECORDED);
    }

    lemma ResumedCrash(start: Journal, before: seq<ObjectState>, written: Option<Journal>, from: nat)
      requires start.phase.Pending? && Crashed(start, from + READ + INSPECT, before, written) &&
                Fine(env, from, from + READ + INSPECT)
      requires |before| == |entries|
      ensures CrashedRun(start.direction, Some(start), written, before, from)
    {
    }
  }

  /** Where a direction may be started, every object is at its pre-state, so a blank journal is true. */
  lemma BlankHolds(es: seq<Entry>, objects: seq<ObjectState>, journal: Option<Journal>, cur: Journal)
    requires Holds(es, objects, journal) && cur == Journal(cur.direction, Pending, Blank(|es|))
    requires Startable(journal, cur.direction) && (journal.Some? ==> journal.value.direction != cur.direction)
    ensures Holds(es, objects, Some(cur)) && Behind(journal, Some(cur))
    ensures forall i | 0 <= i < |es| :: objects[i] == Pre(es[i], cur.direction)
  {
  }

  lemma NotAtPre(es: seq<Entry>, objects: seq<ObjectState>, journal: Option<Journal>, cur: Journal, i: nat)
    requires Startable(journal, cur.direction) && (journal.Some? ==> journal.value.direction != cur.direction)
    requires i < |es| == |objects| && objects[i] != Pre(es[i], cur.direction)
    ensures !Holds(es, objects, journal)
  {
  }

  lemma CurrentHolds(es: seq<Entry>, before: seq<ObjectState>, objects: seq<ObjectState>, cur: Journal, i: nat)
    requires Holds(es, before, Some(cur)) && cur.phase.Pending? && i < |es|
    requires objects == before || (i == Current(cur.progress) && objects == before[i := Post(es[i], cur.direction)])
    ensures Holds(es, objects, Some(cur))
    ensures i == Current(cur.progress) && objects[i] == Post(es[i], cur.direction) ==>
              i < |cur.progress| && Current(RecordedAt(cur, i).progress) == i + 1
  {
    if i == Current(cur.progress) {
      MutationKeeps(es, before, cur, i);
      if objects[i] == Post(es[i], cur.direction) {
        ProgressKeeps(es, objects, cur, i);
      }
    }
  }

  /** A recorded object is at post, so it is at pre only if its two states coincide. */
  lemma RecordedAtPost(es: seq<Entry>, objects: seq<ObjectState>, j: Journal, i: nat)
    requires Holds(es, objects, Some(j)) && i < |es|
    ensures i < Current(j.progress) ==> objects[i] == Post(es[i], j.direction) && j.progress[i]
    ensures i == Current(j.progress) ==> !j.progress[i]
  {
  }

  // ---- Whole histories ---------------------------------------------------------------------

  /** A history: runs in either direction, each interrupted wherever the world says, and power losses. A careful caller
      syncs the journal's directory before a run and makes none when that fails; the code itself does not. */
  datatype Action = Attempt(inverse: bool, careful: bool) | LosePower(temporary: bool)

  /** A power loss as it happened: the durable journal, the objects it was written for, the objects found, and the
      mutations made so far. */
  datatype Loss = Loss(durable: Option<Journal>, anchor: seq<ObjectState>, objects: seq<ObjectState>,
                       mutations: seq<Mutation>)

  /** Any history. It survives its power losses exactly when at each of them no object but the one the durable journal
      points at had changed since that was written, and always when every run is careful. After the first loss that
      leaves a false journal nothing changes any more. */
  method Campaign(f: Fixture, script: seq<Action>) returns (survived: bool, ghost losses: seq<Loss>)
    requires f.Valid()
    modifies f
    ensures f.Sound() && (survived <==> f.Valid())
    ensures survived <==> forall l <- losses :: Kept(l.durable, l.anchor, l.objects)
    ensures Holds(f.entries, old(f.objects), old(f.durable)) && (forall a <- script :: a.Attempt? ==> a.careful) ==>
              survived
    ensures !survived ==> losses != [] && Frozen(f, losses[|losses| - 1])
    ensures old(f.mutations) <= f.mutations
    ensures forall m | |old(f.mutations)| <= m < |f.mutations| :: Orderly(f.entries, f.mutations[m])
    ensures (forall a <- script :: a.Attempt?) ==> survived
    // Without power losses each object is changed at most once per direction if its two states differ in every entry.
    ensures old(f.Counted()) && (forall a <- script :: a.Attempt?) ==> f.Counted()
    ensures old(f.Counted()) && (forall a <- script :: a.Attempt?) && Distinct(f.entries, |f.entries|) ==>
              forall i | 0 <= i < |f.touched| :: f.touched[i] <= 1
  {
    survived, losses := true, [];
    hide Holds, Orderly, MutatedOnce, Kept, Distinct, Behind, Stuck;
    for k := 0 to |script|
      invariant f.Sound() && (survived <==> f.Valid())
      invariant survived <==> forall l <- losses :: Kept(l.durable, l.anchor, l.objects)
      invariant !survived ==> losses != [] && Frozen(f, losses[|losses| - 1])
      invariant Holds(f.entries, old(f.objects), old(f.durable)) && (forall a <- script :: a.Attempt? ==> a.careful) ==>
                  survived && Holds(f.entries, f.objects, f.durable)
      invariant old(f.mutations) <= f.mutations
      invariant forall m | |old(f.mutations)| <= m < |f.mutations| :: Orderly(f.entries, f.mutations[m])
      invariant (forall a <- script :: a.Attempt?) ==> survived
      invariant old(f.Counted()) && (forall a <- script :: a.Attempt?) ==> f.Counted()
    {
      assert script[k] in script;
      match script[k]
      case Attempt(inverse, careful) =>
        var _ := AttemptRun(f, inverse, careful);
      case LosePower(temporary) =>
        if survived {
          losses := losses + [Loss(f.durable, f.anchor, f.objects, f.mutations)];
          assert losses[|losses| - 1] in losses;
        }
        f.LosePower(temporary);
        survived := survived && Kept(f.durable, f.anchor, f.objects);
    }
    if f.Counted() && Distinct(f.entries, |f.entries|) {
      OnceAtMost(f.entries, f.objects, f.journal, f.touched);
    }
  }

  /** Everything is as the loss left it. */
  ghost predicate Frozen(f: Fixture, l: Loss)
    reads f
  {
    f.objects == l.objects && f.journal == f.durable == l.durable && f.mutations == l.mutations
  }

  /** A fixture that is halted stays so over any runs: none completes, and none changes anything. */
  method HaltedForGood(f: Fixture, script: seq<Action>) returns (ghost outs: seq<Outcome>)
    requires f.Sound() && Halted(f.entries, f.objects, f.journal, f.leftover)
    requires forall a <- script :: a.Attempt?
    modifies f
    ensures f.Sound() && Halted(f.entries, f.objects, f.journal, f.leftover)
    ensures |outs| == |script| && forall out <- outs :: !out.Completed?
    ensures f.objects == old(f.objects) && f.journal == old(f.journal) && f.mutations == old(f.mutations)
    ensures f.leftover == old(f.leftover)
  {
    outs := [];
    hide Holds, Orderly, Halted;
    for k := 0 to |script|
      invariant f.Sound() && |outs| == k && forall out <- outs :: !out.Completed?
      invariant f.objects == old(f.objects) && f.journal == old(f.journal) && f.mutations == old(f.mutations)
      invariant f.leftover == old(f.leftover)
    {
      assert script[k] in script;
      var out := AttemptRun(f, script[k].inverse, script[k].careful);
      outs := outs + [out];
    }
  }

  /** The run is going to mutate under a pending journal of its own direction. */
  predicate AtRisk(es: seq<Entry>, objects: seq<ObjectState>, journal: Option<Journal>, leftover: bool, d: Direction) {
    && journal.Some? && journal.value.direction == d && journal.value.phase.Pending?
    && WillMutate(es, objects, journal, leftover, d)
  }

  /** Whether a run may be made while the durable journal is one record behind can be told beforehand: unless the run
      is at risk the durable journal survives it in every world, and if it is at risk there is a fault that loses it. */
  method RunOneBehind(f: Fixture, inverse: bool)
    requires f.Valid() && Distinct(f.entries, |f.entries|)
    requires Behind(f.durable, f.journal) && Holds(f.entries, f.objects, f.durable)
    modifies f
    ensures !AtRisk(f.entries, old(f.objects), old(f.journal), old(f.leftover), DirectionOf(inverse)) ==>
              Holds(f.entries, f.objects, f.durable)
    ensures var d := DirectionOf(inverse);
            var at := BeforeMutation(old(f.journal), d);
            AtRisk(f.entries, old(f.objects), old(f.journal), old(f.leftover), d) && NoWriteback(f.env) &&
            FaultAfter(f.env, old(f.clock), at) && f.env(old(f.clock) + at).applied ==>
              !Holds(f.entries, f.objects, f.durable)
  {
    HeldFacts(f.entries, f.objects, f.journal);
    hide Holds, Behind, Orderly, MutatedOnce, Matches, WellFormed;
    ghost var d, at := DirectionOf(inverse), BeforeMutation(f.journal, DirectionOf(inverse));
    ghost var objects, journal := f.objects, f.journal;
    var _ := f.Run(inverse);
    if AtRisk(f.entries, objects, journal, old(f.leftover), d) {
      var k := ResumeAt(journal, d);
      assert f.entries[k].before != f.entries[k].after;
    } else if Exposed(f.entries, objects, journal) {
      assert old(f.leftover) || !Startable(journal, d);
      assert f.objects == objects;
    }
  }

  lemma OnceAtMost(es: seq<Entry>, objects: seq<ObjectState>, journal: Option<Journal>, touched: seq<nat>)
    requires MutatedOnce(es, objects, journal, touched) && Distinct(es, |es|)
    ensures forall i | 0 <= i < |touched| :: touched[i] <= 1
  {
  }

  method AttemptRun(f: Fixture, inverse: bool, careful: bool) returns (out: Outcome)
    requires f.Sound()
    modifies f
    ensures f.Sound() && (old(f.Valid()) ==> f.Valid()) && (old(f.Counted()) ==> f.Counted())
    ensures old(f.mutations) <= f.mutations
    ensures forall m | |old(f.mutations)| <= m < |f.mutations| :: Orderly(f.entries, f.mutations[m])
    ensures old(f.Valid()) && careful && Holds(f.entries, old(f.objects), old(f.durable)) ==>
              Holds(f.entries, f.objects, f.durable)
    ensures old(Halted(f.entries, f.objects, f.journal, f.leftover)) ==>
              && !out.Completed? && f.objects == old(f.objects) && f.journal == old(f.journal)
              && f.mutations == old(f.mutations) && f.leftover == old(f.leftover)
              && (f.durable == old(f.durable) || f.durable == f.journal)
  {
    hide Matches, WellFormed, Orderly, MutatedOnce, Holds, Halted;
    if careful {
      var ok := f.SyncDirectory();
      if !ok { return Interrupted; }
    }
    out := f.Run(inverse);
  }

  /** After any history that left no temporary, with every entry's states distinct: the pending direction can be resumed
      to its end, and a completed apply followed by an inverse restores what was found. */
  method ResumeAndRestore(f: Fixture) returns (out: Outcome, back: Outcome)
    requires f.Valid() && !f.leftover && Distinct(f.entries, |f.entries|) && FaultFree(f.env, f.clock)
    requires f.journal.Some? && f.journal.value.direction.Apply?
    modifies f
    ensures out.Completed? && back.Completed?
    ensures |f.objects| == |f.entries| && forall i | 0 <= i < |f.entries| :: f.objects[i] == f.entries[i].before
  {
    out := f.Run(false);
    back := f.Run(true);
  }

  // ---- The results spelled out -------------------------------------------------------------

  /** The first `k` entries are recorded and at their end, those after entry `k` are at their beginning, and entry
      `k` is at either. */
  predicate InProgress(es: seq<Entry>, objects: seq<ObjectState>, d: Direction, progress: seq<bool>, k: nat)
    requires |es| == |objects| == |progress|
  {
    && k <= |es|
    && (forall i | 0 <= i < |es| :: progress[i] <==> i < k)
    && (forall i | 0 <= i < k :: objects[i] == if d == Apply then es[i].after else es[i].before)
    && (forall i | k < i < |es| :: objects[i] == if d == Apply then es[i].before else es[i].after)
    && (k < |es| ==> objects[k] == es[k].before || objects[k] == es[k].after)
  }

  /** A pending journal is true exactly when some number of entries is in progress that way; a done one when all are
      recorded and at their end. */
  lemma HoldsSpelled(es: seq<Entry>, objects: seq<ObjectState>, d: Direction, progress: seq<bool>)
    requires |es| == |objects| == |progress|
    ensures Holds(es, objects, Some(Journal(d, Pending, progress))) <==>
            exists k :: InProgress(es, objects, d, progress, k)
    ensures Holds(es, objects, Some(Journal(d, Done, progress))) <==>
            forall i | 0 <= i < |es| ::
              progress[i] && objects[i] == if d == Apply then es[i].after else es[i].before
  {
    var k := Current(progress);
    if Holds(es, objects, Some(Journal(d, Pending, progress))) {
      assert InProgress(es, objects, d, progress, k);
    }
    if k' :| InProgress(es, objects, d, progress, k') {
      PrefixCurrent(progress, k');
    }
    if forall i | 0 <= i < |es| :: progress[i] {
      PrefixCurrent(progress, |es|);
    }
  }

  lemma JournalFits(es: seq<Entry>, objects: seq<ObjectState>, j: Journal)
    requires Holds(es, objects, Some(j))
    ensures |es| == |objects| == |j.progress|
  {
  }

  /** A fault-free run on a true journal, with every condition spelled out: it completes exactly when there is no
      leftover temporary, nothing is pending in the other direction, an inverse does not begin from nothing, and
      no entry recorded under a pending journal has equal states; every object is then at its end of the
      direction, and the journal says so durably. */
  method RunDecides(f: Fixture, inverse: bool) returns (out: Outcome)
    requires f.Valid() && FaultFree(f.env, f.clock)
    modifies f
    ensures f.Valid() && FaultFree(f.env, f.clock)
    ensures out.Completed? <==>
            && !old(f.leftover)
            && match old(f.journal)
               case None => !inverse
               case Some(j) =>
                 || j.phase == Done
                 || (j.direction == (if inverse then Inverse else Apply) &&
                     forall i | 0 <= i < |j.progress| && j.progress[i] && i < |f.entries| ::
                       f.entries[i].before != f.entries[i].after)
    ensures out.Completed? ==> Achieved(f, inverse)
  {
    hide Holds, Matches, MutatedOnce, Orderly;
    HeldFacts(f.entries, f.objects, f.journal);
    if f.journal.Some? {
      RecordedDistinct(f.entries, f.journal.value);
    }
    out := f.Run(inverse);
  }

  lemma RecordedDistinct(es: seq<Entry>, j: Journal)
    requires WellFormed(j, |es|)
    ensures Distinct(es, Current(j.progress)) <==>
            forall i | 0 <= i < |j.progress| && j.progress[i] && i < |es| :: es[i].before != es[i].after
  {
  }

  /** Every object at its end of the direction, and a done journal of it. */
  ghost predicate Achieved(f: Fixture, inverse: bool)
    reads f
  {
    && |f.objects| == |f.entries| && !f.leftover
    && (forall i | 0 <= i < |f.entries| ::
          f.objects[i] == if inverse then f.entries[i].before else f.entries[i].after)
    && f.journal.Some? && f.journal.value.phase == Done
    && f.journal.value.direction == if inverse then Inverse else Apply
  }

  /** What is done in one direction can be turned round, either way. */
  method TurnRound(f: Fixture, inverse: bool) returns (out: Outcome)
    requires f.Valid() && FaultFree(f.env, f.clock) && Achieved(f, inverse)
    modifies f
    ensures f.Valid() && FaultFree(f.env, f.clock) && out.Completed? && Achieved(f, !inverse)
  {
    out := RunDecides(f, !inverse);
  }

  /** The life of a fixture when nothing fails, whatever its entries: applied, taken back, applied again, and so on. */
  method WholeLife(entries: seq<Entry>, env: nat -> Event, turns: nat) returns (f: Fixture)
    requires |entries| > 0 && FaultFree(env, 0)
    ensures fresh(f) && f.Valid() && f.entries == entries && Achieved(f, turns % 2 == 1)
  {
    hide Holds, MutatedOnce, Achieved, AllAt;
    f := new Fixture(entries, env);
    var out := RunDecides(f, false);
    for k := 0 to turns
      invariant fresh(f) && f.Valid() && f.entries == entries && f.env == env && FaultFree(f.env, f.clock)
      invariant Achieved(f, k % 2 == 1)
    {
      out := TurnRound(f, k % 2 == 1);
    }
  }

  // ---- Runs that end badly -----------------------------------------------------------------

  const OPEN := ObjectState(0, 0, 0x1FD)
  const SHUT := ObjectState(0, 0, 0x1C0)

  /** No fault but at interactions `m` and `n`, where a failing mutation takes effect; nothing is written back. */
  function FaultsAt(m: nat, n: nat): nat -> Event {
    i => Event(i != m && i != n, true, false)
  }

  /** The directory sync of the first progress record fails; the resumed run, which does not sync the directory, is cut
      short at its mutation; then power is lost. What is found is a journal that is false. */
  method LaggingJournalLost() returns (f: Fixture)
    ensures fresh(f) && f.Sound() && f.journal.Some? && !Holds(f.entries, f.objects, f.journal)
  {
    var es := [Entry(OPEN, SHUT), Entry(OPEN, SHUT)];
    f := new Fixture(es, FaultsAt(16, 26));
    hide MutatedOnce, Orderly, Matches, Holds, WellFormed;
    var start := Journal(Apply, Pending, Blank(2));
    var _ := f.Run(false);
    assert f.journal == Some(RecordedAt(start, 0)) && f.durable == Some(start) && f.clock == 17;
    PrefixCurrent(RecordedAt(start, 0).progress, 1);
    var _ := f.Run(false);
    assert f.durable == Some(start) && f.objects == [SHUT, SHUT];
    f.LosePower(false);
  }

  /** The same with the directory sync of the intent: the objects have changed and no journal is found. */
  method MissingJournalLost() returns (f: Fixture)
    ensures fresh(f) && f.Sound() && f.journal.None? && !Holds(f.entries, f.objects, f.journal)
  {
    var es := [Entry(OPEN, SHUT), Entry(OPEN, SHUT)];
    f := new Fixture(es, FaultsAt(6, 11));
    hide MutatedOnce, Orderly, Matches, Holds, WellFormed;
    var start := Journal(Apply, Pending, Blank(2));
    var _ := f.Run(false);
    assert f.journal == Some(start) && f.durable == None && f.clock == 7;
    var _ := f.Run(false);
    assert f.durable == None && f.objects == [SHUT, OPEN];
    f.LosePower(false);
  }

  /** An entry whose states coincide, recorded before an interruption: the resumed run refuses though nothing fails,
      and so does the next. */
  method CoincidingEntryRefused() returns (f: Fixture, out: Outcome, again: Outcome, ghost from: nat)
    ensures fresh(f) && f.Valid() && FaultFree(f.env, from) && out.Refused? && again.Refused?
    ensures Stuck(f.entries, f.journal)
  {
    var es := [Entry(OPEN, OPEN), Entry(OPEN, SHUT)];
    f := new Fixture(es, FaultsAt(16, 16));
    hide MutatedOnce, Orderly, Matches, Holds, WellFormed;
    var start := Journal(Apply, Pending, Blank(2));
    out := f.Run(false);
    assert f.journal == Some(RecordedAt(start, 0)) && f.clock == 17;
    PrefixCurrent(RecordedAt(start, 0).progress, 1);
    assert es[0].before == es[0].after && !f.leftover;
    from := f.clock;
    out := f.Run(false);
    again := f.Run(false);
  }
}
