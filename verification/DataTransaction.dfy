/** The journaled mode flip of one directory, over a disk that may lose power between any two system calls. */
module DataTransaction {
  import opened Wrappers
  import opened Journal

  const OPEN_MODE: nat := 0x1FD    // 0775
  const PRIVATE_MODE: nat := 0x1C0 // 0700

  // ---- The disk ----------------------------------------------------------------------------

  /** What a reader finds in a file: a whole record, or octets it refuses. */
  datatype Content = Torn | Whole(record: Record)

  /** What a name in the journal directory refers to. `synced` says the file's octets survive a power loss. */
  datatype Entry = Absent | File(id: nat, content: Content, synced: bool)

  /** One copy of everything: the target's mode, and the names `record` and `record.new`. */
  datatype Image = Image(mode: nat, record: Entry, temp: Entry)

  /** The copy the running system sees, and the copy that survives a power loss. */
  datatype Store = Store(vol: Image, dur: Image)

  /** Items the kernel happens to write back on its own after a system call. */
  datatype Writeback = Writeback(mode: bool, record: bool, temp: bool)

  /** A system call that is not ok has no effect: it failed, or the process died before it. */
  datatype Event = Event(ok: bool, writeback: Writeback)

  function Written(s: Store, w: Writeback): Store {
    s.(dur := Image(if w.mode then s.vol.mode else s.dur.mode,
                    if w.record then s.vol.record else s.dur.record,
                    if w.temp then s.vol.temp else s.dur.temp))
  }

  /** Changes the file with the given id under every name it has. */
  function Touch(e: Entry, id: nat, content: Content, synced: bool): Entry {
    if e.File? && e.id == id then File(id, content, synced) else e
  }

  function TouchAll(s: Store, id: nat, content: Content, synced: bool): Store {
    Store(s.vol.(record := Touch(s.vol.record, id, content, synced), temp := Touch(s.vol.temp, id, content, synced)),
          s.dur.(record := Touch(s.dur.record, id, content, synced), temp := Touch(s.dur.temp, id, content, synced)))
  }

  function Created(s: Store, id: nat): Store { s.(vol := s.vol.(temp := File(id, Torn, false))) }

  function Renamed(s: Store): Store { s.(vol := s.vol.(record := s.vol.temp, temp := Absent)) }

  function Unlinked(s: Store): Store { s.(vol := s.vol.(temp := Absent)) }

  function DirectorySynced(s: Store): Store {
    s.(dur := s.dur.(record := s.vol.record, temp := s.vol.temp))
  }

  function ModeSet(s: Store, mode: nat): Store { s.(vol := s.vol.(mode := mode)) }

  function ModeSynced(s: Store): Store { s.(dur := s.dur.(mode := s.vol.mode)) }

  /** A power loss leaves the durable names and mode; octets never synced may be torn. */
  function Survivor(e: Entry, torn: bool): Entry {
    if e.File? && !e.synced && torn then e.(content := Torn) else e
  }

  function PowerLost(s: Store, recordTorn: bool, tempTorn: bool): Store {
    var img := s.dur.(record := Survivor(s.dur.record, recordTorn), temp := Survivor(s.dur.temp, tempTorn));
    Store(img, img)
  }

  // ---- The invariant -----------------------------------------------------------------------

  /** The object the journal is about. */
  datatype Target = Target(identity: Identity, owner: nat)

  function PreMode(d: Direction): nat { if d.Apply? then OPEN_MODE else PRIVATE_MODE }

  function PostMode(d: Direction): nat { PreMode(d.Opposite()) }

  function RecordIn(e: Entry): Option<Record> {
    if e.File? && e.content.Whole? then Some(e.content.record) else None
  }

  predicate About(r: Record, o: Target) {
    r.identity == o.identity && r.owner == o.owner
  }

  /** The name `record`: absent, or a whole record whose octets are durable. Never torn. */
  predicate Authority(e: Entry, o: Target) {
    e.File? ==> e.synced && e.content.Whole? && About(e.content.record, o)
  }

  /** The name `record.new`: absent, torn, or a whole record. */
  predicate Candidate(e: Entry, o: Target) {
    e.File? && e.content.Whole? ==> About(e.content.record, o)
  }

  /** The journal's only moves: start applying, finish what is pending, turn round. */
  predicate Next(r: Option<Record>, n: Record) {
    match r
    case None => n.direction.Apply? && n.phase.Pending?
    case Some(p) =>
      if p.phase.Pending? then n.direction == p.direction && n.phase.Done?
      else n.direction == p.direction.Opposite() && n.phase.Pending?
  }

  /** A whole `record.new` is the next record, a second name of the current one, or a pending apply left beside a
      completed one. */
  predicate Beside(record: Entry, temp: Entry) {
    match RecordIn(temp)
    case None => true
    case Some(t) =>
      var r := RecordIn(record);
      r == Some(t) || Next(r, t) || (r.Some? && Done(r.value, Apply) && t.direction.Apply? && t.phase.Pending?)
  }

  predicate Done(r: Record, d: Direction) {
    r.phase.Done? && r.direction == d
  }

  /** No record means 0775, apply done means 0700, rollback done means 0775, pending means either. */
  predicate Agrees(record: Entry, mode: nat) {
    match RecordIn(record)
    case None => mode == OPEN_MODE
    case Some(r) => if r.phase.Done? then mode == PostMode(r.direction) else mode == OPEN_MODE || mode == PRIVATE_MODE
  }

  /** A done record exists, even as `record.new`, only once its mode does. */
  predicate Earned(temp: Entry, mode: nat) {
    RecordIn(temp).Some? && RecordIn(temp).value.phase.Done? ==> mode == PostMode(RecordIn(temp).value.direction)
  }

  predicate Consistent(s: Store, o: Target) {
    && Authority(s.vol.record, o) && Authority(s.dur.record, o)
    && Candidate(s.vol.temp, o) && Candidate(s.dur.temp, o)
    && (s.vol.temp.File? && s.dur.temp.File? ==> s.vol.temp == s.dur.temp)
    && (s.vol.record == s.dur.record || Ahead(s))
    && Beside(s.vol.record, s.vol.temp) && Beside(s.dur.record, s.dur.temp)
    && ModeFits(s, s.vol.mode) && ModeFits(s, s.dur.mode)
  }

  /** Either mode agrees with every name, since a power loss may combine them freely. */
  predicate ModeFits(s: Store, mode: nat) {
    && Agrees(s.vol.record, mode) && Agrees(s.dur.record, mode)
    && Earned(s.vol.temp, mode) && Earned(s.dur.temp, mode)
  }

  /** A rename not yet synced: the volatile record is the durable one's successor. */
  predicate Ahead(s: Store) {
    && s.vol.record.File? && RecordIn(s.vol.record).Some?
    && Next(RecordIn(s.dur.record), RecordIn(s.vol.record).value)
    && s.vol.temp.Absent? && (s.dur.temp.Absent? || s.dur.temp == s.vol.record)
  }

  /** What the code itself leaves under an atomic rename: a whole `record.new` is always the next record. */
  predicate Fresh(img: Image) {
    RecordIn(img.temp).Some? ==> Next(RecordIn(img.record), RecordIn(img.temp).value)
  }

  predicate OwnTraces(s: Store) {
    Fresh(s.vol) && Fresh(s.dur)
  }

  /** File ids in use are below the next one, and an id names one file. */
  predicate Numbered(s: Store, nextId: nat) {
    && Below(s.vol.record, nextId) && Below(s.vol.temp, nextId)
    && Below(s.dur.record, nextId) && Below(s.dur.temp, nextId)
    && SameFile(s.vol.record, s.vol.temp) && SameFile(s.vol.record, s.dur.temp)
    && SameFile(s.dur.record, s.vol.temp) && SameFile(s.dur.record, s.dur.temp)
  }

  predicate Below(e: Entry, nextId: nat) {
    e.File? ==> e.id < nextId
  }

  predicate SameFile(e: Entry, f: Entry) {
    e.File? && f.File? && e.id == f.id ==> e == f
  }

  /** Whatever the kernel writes back on its own keeps the two copies consistent. */
  lemma WritebackKeepsConsistent(s: Store, o: Target, w: Writeback)
    requires Consistent(s, o)
    ensures Consistent(Written(s, w), o)
  {
  }

  /** So does a power loss. */
  lemma PowerLossKeepsConsistent(s: Store, o: Target, recordTorn: bool, tempTorn: bool)
    requires Consistent(s, o)
    ensures Consistent(PowerLost(s, recordTorn, tempTorn), o)
  {
  }

  // ---- Which runs may complete -------------------------------------------------------------

  /** The selection a caller passes in. */
  datatype Condition = Condition(identity: Identity, owner: nat, mode: nat)

  predicate Selects(c: Condition, o: Target, uid: nat) {
    && c.mode == OPEN_MODE && c.owner == uid && c.identity.device != 0 && c.identity.inode != 0
    && c.identity == o.identity && c.owner == o.owner
  }

  /** The record that recovery leaves in authority. */
  function Recovered(img: Image): Option<Record> {
    if RecordIn(img.temp).Some? && RecordIn(img.temp) != RecordIn(img.record) && !Leftover(img)
    then RecordIn(img.temp) else RecordIn(img.record)
  }

  /** A pending apply beside a completed apply is discarded, not promoted. */
  predicate Leftover(img: Image) {
    && RecordIn(img.record).Some? && Done(RecordIn(img.record).value, Apply)
    && RecordIn(img.temp).Some? && RecordIn(img.temp).value.direction.Apply? && RecordIn(img.temp).value.phase.Pending?
  }

  predicate HasTorn(img: Image) {
    img.temp.File? && img.temp.content.Torn?
  }

  /** Work in one direction excludes the other; completed work allows either; only an apply starts from nothing. */
  predicate Continues(rec: Option<Record>, d: Direction) {
    match rec
    case None => d.Apply?
    case Some(r) => r.direction == d || r.phase.Done?
  }

  /** The runs that may complete on what is visible: a whole `record.new` that differs from the record must name the
      same direction, and the record recovery leaves must allow it. */
  predicate Permitted(img: Image, d: Direction) {
    && !HasTorn(img)
    && (RecordIn(img.temp).Some? && RecordIn(img.temp) != RecordIn(img.record) ==>
          RecordIn(img.temp).value.direction == d)
    && Continues(Recovered(img), d)
  }

  /** The direction of unfinished business: `record.new` first, then `record`, else apply. */
  function Named(img: Image): Direction {
    if RecordIn(img.temp).Some? then RecordIn(img.temp).value.direction
    else if RecordIn(img.record).Some? then RecordIn(img.record).value.direction
    else Apply
  }

  /** Post-mode, done record and no `record.new`, in both copies. */
  predicate Finished(s: Store, d: Direction) {
    forall img <- [s.vol, s.dur] ::
      && img.mode == PostMode(d) && img.temp.Absent?
      && RecordIn(img.record).Some? && Done(RecordIn(img.record).value, d)
  }

  /** From every consistent state without a torn `record.new`, the named direction is permitted. */
  lemma NamedDirectionPermitted(s: Store, o: Target)
    requires Consistent(s, o) && !HasTorn(s.vol)
    ensures Permitted(s.vol, Named(s.vol))
  {
  }

  /** While work is pending, the opposite direction is not. */
  lemma OppositeRefused(s: Store, o: Target)
    requires Consistent(s, o)
    requires Recovered(s.vol).Some? && Recovered(s.vol).value.phase.Pending?
    ensures !Permitted(s.vol, Recovered(s.vol).value.direction.Opposite())
  {
  }

  // ---- Writing one record ------------------------------------------------------------------

  /** Both names are the same in both copies and there is no `record.new`. */
  predicate Settled(s: Store) {
    s.vol.record == s.dur.record && s.vol.temp.Absent? && s.dur.temp.Absent?
  }

  /** `r` may be written next: it is the next move, and a done record finds its mode durable. */
  predicate Writable(s: Store, r: Record, o: Target) {
    && About(r, o) && Next(RecordIn(s.vol.record), r)
    && (r.phase.Done? ==> s.vol.mode == s.dur.mode == PostMode(r.direction))
  }

  /** Between creation and rename: `f` is `record.new`, and its name may or may not be durable. */
  predicate Staged(base: Store, s: Store, f: Entry) {
    && s.vol == base.vol.(temp := f)
    && s.dur.record == base.dur.record
    && (s.dur.temp.Absent? || s.dur.temp == f)
    && (s.dur.mode == base.dur.mode || s.dur.mode == base.vol.mode)
  }

  /** After the rename: each name may or may not be durable. */
  predicate Promoted(base: Store, s: Store, f: Entry) {
    && s.vol == base.vol.(record := f, temp := Absent)
    && (s.dur.record == base.dur.record || s.dur.record == f)
    && (s.dur.temp.Absent? || s.dur.temp == f)
    && (s.dur.mode == base.dur.mode || s.dur.mode == base.vol.mode)
  }

  /** No name in `base` refers to the file with this id. */
  predicate Unused(base: Store, id: nat) {
    (base.vol.record.File? ==> base.vol.record.id != id) && (base.dur.record.File? ==> base.dur.record.id != id)
  }

  /** `f` may stand as `record.new` beside `base` while `r` is being written. */
  predicate Writing(base: Store, f: Entry, r: Record, o: Target, nextId: nat) {
    && Consistent(base, o) && Numbered(base, nextId) && Settled(base) && Writable(base, r, o)
    && f.File? && f.id < nextId && Unused(base, f.id) && (f.content == Torn || f.content == Whole(r))
  }

  lemma StageBegins(base: Store, id: nat, w: Writeback)
    requires Settled(base)
    ensures Staged(base, Written(Created(base, id), w), File(id, Torn, false))
  {
  }

  lemma StageAdvances(base: Store, s: Store, f: Entry, content: Content, synced: bool, w: Writeback)
    requires Settled(base) && Staged(base, s, f) && f.File? && Unused(base, f.id)
    ensures Staged(base, Written(TouchAll(s, f.id, content, synced), w), File(f.id, content, synced))
    ensures Staged(base, Written(s, w), f)
  {
  }

  lemma StagePromotes(base: Store, s: Store, f: Entry, w: Writeback)
    requires Settled(base) && Staged(base, s, f)
    ensures Promoted(base, Written(Renamed(s), w), f)
    ensures Staged(base, Written(s, w), f)
  {
  }

  lemma PromotionSettles(base: Store, s: Store, f: Entry, w: Writeback)
    requires Promoted(base, s, f)
    ensures Promoted(base, Written(DirectorySynced(s), w), f) && Settled(Written(DirectorySynced(s), w))
    ensures Promoted(base, Written(s, w), f)
  {
  }

  lemma StagedConsistent(base: Store, s: Store, f: Entry, r: Record, o: Target, nextId: nat)
    requires Writing(base, f, r, o, nextId) && Staged(base, s, f)
    ensures Consistent(s, o) && Numbered(s, nextId)
  {
  }

  lemma PromotedConsistent(base: Store, s: Store, f: Entry, r: Record, o: Target, nextId: nat)
    requires Writing(base, f, r, o, nextId) && f.content == Whole(r) && f.synced && Promoted(base, s, f)
    ensures Consistent(s, o) && Numbered(s, nextId)
  {
  }

  // ---- The code ----------------------------------------------------------------------------

  datatype Outcome = Completed | Refused | Interrupted

  datatype Recovery = Proceed(record: Option<Record>) | Stop(outcome: Outcome)

  function DirectionOf(rollback: bool): Direction { if rollback then Rollback else Apply }

  /** A chmod as it happened: the store just before, and the new mode. */
  datatype Chmod = Chmod(before: Store, mode: nat)

  /** Write-ahead order: both copies of the record are the pending record of this change, made from its pre-mode. */
  predicate WriteAhead(c: Chmod) {
    var r := RecordIn(c.before.dur.record);
    && r.Some? && RecordIn(c.before.vol.record) == r
    && var r := r.value;
      && r.phase.Pending? && c.before.vol.mode == PreMode(r.direction) && c.mode == PostMode(r.direction)
  }

  ghost predicate FaultFree(env: nat -> Event, from: nat) {
    forall i | from <= i :: env(i).ok
  }

  class Disk {
    const target: Target
    const uid: nat
    // What the world does at the n-th system call.
    const env: nat -> Event
    // Whether the two names of a rename always reach the disk together.
    const atomicRename: bool
    var clock: nat
    var s: Store
    var nextId: nat
    ghost var chmods: seq<Chmod>
    // How often a `record.new` was thrown away.
    ghost var drops: nat

    constructor (target: Target, uid: nat, env: nat -> Event, atomicRename: bool)
      ensures Valid() && chmods == [] && drops == 0 && OwnTraces(s)
      ensures this.target == target && this.uid == uid && this.env == env && this.atomicRename == atomicRename
      ensures s.vol == s.dur == Image(OPEN_MODE, Absent, Absent)
    {
      this.target, this.uid, this.env, this.atomicRename := target, uid, env, atomicRename;
      clock, nextId, chmods, drops := 0, 0, [], 0;
      s := Store(Image(OPEN_MODE, Absent, Absent), Image(OPEN_MODE, Absent, Absent));
    }

    ghost predicate Valid()
      reads this
    {
      Consistent(s, target) && Numbered(s, nextId)
    }

    /** What the kernel writes back after the n-th system call. */
    function At(n: nat): Writeback {
      var w := env(n).writeback;
      if atomicRename then w.(temp := w.record) else w
    }

    /** One system call: its effect unless the world says no, then whatever the kernel writes back. */
    method Syscall(effect: Store) returns (ok: bool)
      modifies this`clock, this`s
      ensures clock == old(clock) + 1
      ensures ok == env(old(clock)).ok
      ensures s == Written(if ok then effect else old(s), At(old(clock)))
      ensures atomicRename && OwnTraces(old(s)) && OwnTraces(effect) ==> OwnTraces(s)
    {
      ok := env(clock).ok;
      s := Written(if ok then effect else s, At(clock));
      clock := clock + 1;
    }

    method Fchmod(mode: nat) returns (ok: bool)
      modifies this`clock, this`s, this`chmods
      ensures clock == old(clock) + 1
      ensures ok == env(old(clock)).ok
      ensures s == Written(if ok then ModeSet(old(s), mode) else old(s), At(old(clock)))
      ensures atomicRename && OwnTraces(old(s)) ==> OwnTraces(s)
      ensures chmods == old(chmods) + if ok then [Chmod(old(s), mode)] else []
    {
      ghost var c := Chmod(s, mode);
      ok := Syscall(ModeSet(s, mode));
      if ok {
        chmods := chmods + [c];
      }
    }

    predicate InState(c: Condition, mode: nat)
      reads this
    {
      s.vol.mode == mode && c.identity == target.identity && c.owner == target.owner
    }

    /** Creates, writes and syncs `record.new`, renames it over `record`, and syncs the directory. */
    method SyncRecord(r: Record) returns (ok: bool)
      requires Valid() && Settled(s) && Writable(s, r, target)
      modifies this
      ensures old(clock) <= clock
      ensures atomicRename && OwnTraces(old(s)) ==> OwnTraces(s) && drops == old(drops)
      ensures Valid() && chmods == old(chmods) && s.vol.mode == old(s.vol.mode)
      ensures s.dur.mode == old(s.dur.mode) || s.dur.mode == s.vol.mode
      ensures FaultFree(env, old(clock)) ==> ok
      ensures ok ==> Settled(s) && RecordIn(s.vol.record) == Some(r)
    {
      hide Consistent;
      ghost var base := s;
      var id := nextId;
      nextId := nextId + 1;
      ghost var f := File(id, Torn, false);
      ghost var w := At(clock);
      ok := Syscall(Created(s, id));
      if !ok {
        WritebackKeepsConsistent(base, target, w);
        return;
      }
      StageBegins(base, id, w);
      ghost var before := s;
      w := At(clock);
      ok := Syscall(TouchAll(s, id, Whole(r), false));
      StageAdvances(base, before, f, Whole(r), false, w);
      if !ok {
        StagedConsistent(base, s, f, r, target, nextId);
        return;
      }
      ok := PromoteTemp(base, r);
    }

    /** Syncs a whole `record.new`, renames it over `record`, and syncs the directory. */
    method PromoteTemp(ghost base: Store, r: Record) returns (ok: bool)
      requires Writing(base, s.vol.temp, r, target, nextId) && s.vol.temp.content == Whole(r)
      requires Staged(base, s, s.vol.temp)
      modifies this`clock, this`s
      ensures old(clock) <= clock
      ensures atomicRename && OwnTraces(old(s)) ==> OwnTraces(s) && drops == old(drops)
      ensures Valid() && s.vol.mode == old(s.vol.mode)
      ensures s.dur.mode == old(s.dur.mode) || s.dur.mode == s.vol.mode
      ensures FaultFree(env, old(clock)) ==> ok
      ensures ok ==> Settled(s) && RecordIn(s.vol.record) == Some(r)
    {
      hide Consistent, Numbered;
      ghost var f := s.vol.temp;
      ghost var before, w := s, At(clock);
      ok := Syscall(TouchAll(s, s.vol.temp.id, Whole(r), true));
      StageAdvances(base, before, f, Whole(r), true, w);
      if ok { f := File(f.id, Whole(r), true); }
      StagedConsistent(base, s, f, r, target, nextId);
      if !ok { return; }
      before, w := s, At(clock);
      ok := Syscall(Renamed(s));
      StagePromotes(base, before, f, w);
      if !ok {
        StagedConsistent(base, s, f, r, target, nextId);
        return;
      }
      before, w := s, At(clock);
      ok := Syscall(DirectorySynced(s));
      PromotionSettles(base, before, f, w);
      PromotedConsistent(base, s, f, r, target, nextId);
    }

    /** Unlinks `record.new` and syncs the directory. */
    method DropTemp() returns (ok: bool)
      requires Valid() && s.vol.record == s.dur.record && s.vol.temp == s.dur.temp
      modifies this`clock, this`s, this`drops
      ensures old(clock) <= clock
      ensures Valid() && s.vol == old(s.vol).(temp := s.vol.temp)
      ensures s.dur.mode == old(s.dur.mode) || s.dur.mode == s.vol.mode
      ensures FaultFree(env, old(clock)) ==> ok
      ensures ok ==> Settled(s)
    {
      drops := drops + 1;
      ok := Syscall(Unlinked(s));
      if !ok { return; }
      ok := Syscall(DirectorySynced(s));
    }

    /** Deals with a `record.new` left by an interrupted run: promote it, discard it, or refuse. */
    method Recover(before: Condition, rollback: bool) returns (r: Recovery)
      requires Valid() && s.vol.record == s.dur.record && s.vol.temp == s.dur.temp
      modifies this`clock, this`s, this`drops
      ensures old(clock) <= clock
      ensures atomicRename && OwnTraces(old(s)) ==> OwnTraces(s) && drops == old(drops)
      ensures Valid() && s.vol.mode == old(s.vol.mode)
      ensures s.dur.mode == old(s.dur.mode) || s.dur.mode == s.vol.mode
      ensures r.Proceed? ==>
                && Settled(s) && !HasTorn(old(s.vol))
                && r.record == RecordIn(s.vol.record) == Recovered(old(s.vol))
                && (Permitted(old(s.vol), DirectionOf(rollback)) <==> Continues(r.record, DirectionOf(rollback)))
      ensures r == Stop(Refused) ==>
                s.vol == old(s.vol) && !(Selects(before, target, uid) && Permitted(old(s.vol), DirectionOf(rollback)))
      ensures r.Stop? ==> !r.outcome.Completed?
      ensures HasTorn(old(s.vol)) ==> r == Stop(Refused)
      ensures old(s.vol).temp.Absent? ==> r.Proceed? && s == old(s)
      ensures FaultFree(env, old(clock)) ==> r != Stop(Interrupted)
    {
      var rec := RecordIn(s.vol.record);
      if s.vol.temp.Absent? {
        return Proceed(rec);
      }
      if s.vol.temp.content.Torn? {
        return Stop(Refused);
      }
      var temp := s.vol.temp.content.record;
      ghost var base := s.(vol := s.vol.(temp := Absent), dur := s.dur.(temp := Absent));
      var ok;
      if rec.None? {
        // Nothing recorded yet: only the first intent, on a directory still open, may become the record.
        if !temp.direction.Apply? || !temp.phase.Pending?
           || temp.identity != before.identity || temp.owner != before.owner
           || !InState(before, OPEN_MODE) {
          return Stop(Refused);
        }
        ok := PromoteTemp(base, temp);
        return if ok then Proceed(Some(temp)) else Stop(Interrupted);
      }
      var cur := rec.value;
      if temp == cur {
        ok := DropTemp();
        return if ok then Proceed(rec) else Stop(Interrupted);
      }
      if cur.phase.Pending? && temp.identity == cur.identity && temp.owner == cur.owner
         && temp.direction == cur.direction && temp.phase.Done?
         && temp.identity == before.identity && temp.owner == before.owner
         && ((cur.direction.Apply? && !rollback && InState(before, PRIVATE_MODE))
             || (cur.direction.Rollback? && rollback && InState(before, OPEN_MODE))) {
        ok := PromoteTemp(base, temp);
        return if ok then Proceed(Some(temp)) else Stop(Interrupted);
      }
      // Otherwise the record must be done and the mode the one it left; then only its successors are let through.
      var valid :=
        && temp.identity == cur.identity && temp.owner == cur.owner && cur.phase.Done?
        && ((cur.direction.Apply? && InState(before, PRIVATE_MODE)
             && ((temp.direction.Apply? && temp.phase.Pending? && !rollback)
                 || (temp.direction.Apply? && temp.phase.Done? && !rollback)
                 || (temp.direction.Rollback? && temp.phase.Pending? && rollback)))
            || (cur.direction.Rollback? && InState(before, OPEN_MODE)
                && temp.direction.Apply? && temp.phase.Pending? && !rollback));
      if !valid {
        return Stop(Refused);
      }
      if temp.direction != cur.direction && temp.phase.Pending? {
        ok := PromoteTemp(base, temp);
        return if ok then Proceed(Some(temp)) else Stop(Interrupted);
      }
      ok := DropTemp();
      return if ok then Proceed(rec) else Stop(Interrupted);
    }

    predicate MayRun(before: Condition, rollback: bool, was: Store) {
      Selects(before, target, uid) && Permitted(was.vol, DirectionOf(rollback))
    }

    /** With the pending record durable: change the mode if it is still the old one, make it durable, record
        completion. */
    method Carry(before: Condition, pending: Record, atPre: bool) returns (out: Outcome)
      requires Valid() && Settled(s) && RecordIn(s.vol.record) == Some(pending) && pending.phase.Pending?
      requires before.identity == target.identity && before.owner == target.owner
      requires s.vol.mode == if atPre then PreMode(pending.direction) else PostMode(pending.direction)
      modifies this
      ensures old(clock) <= clock
      ensures atomicRename && OwnTraces(old(s)) ==> OwnTraces(s) && drops == old(drops)
      ensures Valid() && !out.Refused?
      ensures old(chmods) <= chmods && forall i | |old(chmods)| <= i < |chmods| :: WriteAhead(chmods[i])
      ensures out.Completed? ==> Finished(s, pending.direction)
      ensures FaultFree(env, old(clock)) ==> out.Completed?
    {
      var ok := ChangeMode(before, pending, atPre);
      if !ok { return Interrupted; }
      ok := SyncRecord(pending.(phase := Phase.Done));
      out := if ok then Completed else Interrupted;
    }

    /** Changes the mode if it is still the old one, and makes it durable on the changed and on the resumed path
        alike. */
    method ChangeMode(before: Condition, pending: Record, atPre: bool) returns (ok: bool)
      requires Valid() && Settled(s) && RecordIn(s.vol.record) == Some(pending) && pending.phase.Pending?
      requires before.identity == target.identity && before.owner == target.owner
      requires s.vol.mode == if atPre then PreMode(pending.direction) else PostMode(pending.direction)
      modifies this`clock, this`s, this`chmods
      ensures old(clock) <= clock
      ensures OwnTraces(old(s)) ==> OwnTraces(s)
      ensures Valid() && Settled(s) && RecordIn(s.vol.record) == Some(pending)
      ensures old(chmods) <= chmods && forall i | |old(chmods)| <= i < |chmods| :: WriteAhead(chmods[i])
      ensures ok ==> s.vol.mode == s.dur.mode == PostMode(pending.direction)
      ensures FaultFree(env, old(clock)) ==> ok
    {
      var post := PostMode(pending.direction);
      if atPre {
        ok := Fchmod(post);
        if !ok { return; }
        ok := Syscall(ModeSynced(s));
        if !ok { return; }
      }
      ok := Syscall(s);
      if !ok || !InState(before, post) { return false; }
      ok := Syscall(ModeSynced(s));
      if !ok { return; }
      // The parent directory's sync concerns none of the modelled items.
      ok := Syscall(s);
      ok := ok && InState(before, post);
    }

    /** The decision on the settled journal, and the work it allows. */
    method Transition(before: Condition, rollback: bool, rec: Option<Record>) returns (out: Outcome)
      requires Valid() && Settled(s) && rec == RecordIn(s.vol.record)
      modifies this
      ensures old(clock) <= clock
      ensures atomicRename && OwnTraces(old(s)) ==> OwnTraces(s) && drops == old(drops)
      ensures Valid()
      ensures old(chmods) <= chmods && forall i | |old(chmods)| <= i < |chmods| :: WriteAhead(chmods[i])
      ensures out.Completed? ==> Finished(s, DirectionOf(rollback))
      ensures var may := (before.identity == target.identity && before.owner == target.owner) &&
                Continues(rec, DirectionOf(rollback));
              && (FaultFree(env, old(clock)) ==> out == if may then Completed else Refused)
              && (out.Completed? ==> may) && (out.Refused? ==> !may)
              && (!may ==> s.vol == old(s.vol) && chmods == old(chmods))
      ensures Finished(old(s), DirectionOf(rollback)) ==> s == old(s)
    {
      var d := DirectionOf(rollback);
      var pre, post := PreMode(d), PostMode(d);
      if rec.Some? && (rec.value.identity != before.identity || rec.value.owner != before.owner) {
        return Refused;
      }
      if rollback && (rec.None? ||
                      (rec.value.direction.Apply? && (!rec.value.phase.Done? || !InState(before, PRIVATE_MODE)))) {
        return Refused;
      }
      var resuming := rec.Some?;
      if resuming && rec.value.direction != d {
        if !rec.value.phase.Done? || !InState(before, pre) {
          return Refused;
        }
        resuming := false;
      }
      if resuming && rec.value.phase.Done? {
        var ok := Syscall(s);
        return if ok && InState(before, post) then Completed else Interrupted;
      }
      var atPre := InState(before, pre);
      var atPost := InState(before, post);
      if !atPre && !(resuming && atPost) {
        return Refused;
      }
      var pending := Record(before.identity, before.owner, d, Pending);
      if !resuming {
        var ok := SyncRecord(pending);
        if !ok { return Interrupted; }
      }
      out := Carry(before, pending, atPre);
    }

    /** The directory sync every run begins with: from here on it decides on durable names only. */
    method SyncRoot() returns (ok: bool)
      requires Valid()
      modifies this`clock, this`s
      ensures old(clock) <= clock
      ensures Valid() && s.vol == old(s.vol)
      ensures s.dur.mode == old(s.dur.mode) || s.dur.mode == s.vol.mode
      ensures FaultFree(env, old(clock)) ==> ok
      ensures ok ==> s.vol.record == s.dur.record && s.vol.temp == s.dur.temp
      ensures atomicRename && OwnTraces(old(s)) ==> OwnTraces(s)
      ensures old(s.vol == s.dur) ==> s == old(s)
    {
      ok := Syscall(DirectorySynced(s));
    }

    /** The selected metadata transition, resuming whatever an interrupted run left. */
    method Run(before: Condition, rollback: bool) returns (out: Outcome)
      requires Valid()
      modifies this
      ensures old(clock) <= clock
      ensures atomicRename && OwnTraces(old(s)) ==> OwnTraces(s) && drops == old(drops)
      // At every possible interruption, and hence between any two system calls:
      ensures Valid()
      ensures old(chmods) <= chmods && forall i | |old(chmods)| <= i < |chmods| :: WriteAhead(chmods[i])
      // A run that returns success has made the mode and its done record durable.
      ensures out.Completed? ==> Finished(s, DirectionOf(rollback))
      // Without faults, a run completes exactly when it may.
      ensures FaultFree(env, old(clock)) && MayRun(before, rollback, old(s)) ==> out.Completed?
      ensures out.Completed? ==> MayRun(before, rollback, old(s))
      ensures out.Refused? ==> !MayRun(before, rollback, old(s))
      ensures FaultFree(env, old(clock)) ==> !out.Interrupted?
      // A run that may not complete leaves the mode alone; a torn `record.new` stops everything.
      ensures !MayRun(before, rollback, old(s)) ==> s.vol.mode == old(s.vol.mode) && chmods == old(chmods)
      ensures HasTorn(old(s.vol)) ==> s.vol == old(s.vol)
      // Repeating a finished run changes nothing.
      ensures Finished(old(s), DirectionOf(rollback)) ==> s == old(s)
    {
      if before.mode != OPEN_MODE || before.owner != uid || before.identity.device == 0 || before.identity.inode == 0 {
        return Refused;
      }
      var ok := SyncRoot();
      if !ok { return Interrupted; }
      hide Consistent, Numbered, Continues, Recovered;
      var recovery := Recover(before, rollback);
      if recovery.Stop? {
        return recovery.outcome;
      }
      out := Transition(before, rollback, recovery.record);
    }
  }

  // ---- Whole histories ---------------------------------------------------------------------

  /** What a history consists of: runs of any selection in any direction, each cut short wherever the world says, and
      power losses. A process crash is a run that ends Interrupted. */
  datatype Action = Attempt(before: Condition, rollback: bool) | LosePower(recordTorn: bool, tempTorn: bool)

  /** The readable part of the invariant, for one copy. */
  predicate Safe(img: Image) {
    && (img.mode == OPEN_MODE || img.mode == PRIVATE_MODE)
    && (img.record.Absent? || (img.record.content.Whole? && img.record.synced))
    && Agrees(img.record, img.mode)
    && Earned(img.temp, img.mode)
  }

  /** In every reachable state, whichever of its two modes and records a power loss combines, they agree. */
  lemma ConsistentIsSafe(s: Store, o: Target)
    requires Consistent(s, o)
    ensures Safe(s.vol) && Safe(s.dur)
    ensures Safe(s.vol.(mode := s.dur.mode)) && Safe(s.dur.(mode := s.vol.mode))
  {
  }

  method Campaign(disk: Disk, script: seq<Action>)
    requires disk.Valid()
    modifies disk
    ensures disk.Valid() && Safe(disk.s.vol) && Safe(disk.s.dur)
    ensures old(disk.chmods) <= disk.chmods
    ensures forall i | |old(disk.chmods)| <= i < |disk.chmods| :: WriteAhead(disk.chmods[i])
    ensures disk.atomicRename && OwnTraces(old(disk.s)) ==> OwnTraces(disk.s) && disk.drops == old(disk.drops)
  {
    for i := 0 to |script|
      invariant disk.Valid()
      invariant old(disk.chmods) <= disk.chmods
      invariant forall i | |old(disk.chmods)| <= i < |disk.chmods| :: WriteAhead(disk.chmods[i])
      invariant disk.atomicRename && OwnTraces(old(disk.s)) ==> OwnTraces(disk.s) && disk.drops == old(disk.drops)
    {
      match script[i]
      case Attempt(before, rollback) =>
        var _ := disk.Run(before, rollback);
      case LosePower(recordTorn, tempTorn) =>
        PowerLossKeepsConsistent(disk.s, disk.target, recordTorn, tempTorn);
        disk.s := PowerLost(disk.s, recordTorn, tempTorn);
    }
    ConsistentIsSafe(disk.s, disk.target);
  }

  /** After any history, two fault-free runs in the named direction: the first finishes the work, the second is idle. */
  method FinishAndRepeat(disk: Disk, before: Condition) returns (first: Outcome, second: Outcome)
    requires disk.Valid() && Selects(before, disk.target, disk.uid)
    requires FaultFree(disk.env, disk.clock) && !HasTorn(disk.s.vol)
    modifies disk
    ensures first.Completed? && second.Completed?
    ensures Finished(disk.s, Named(old(disk.s.vol)))
  {
    NamedDirectionPermitted(disk.s, disk.target);
    var rollback := Named(disk.s.vol).Rollback?;
    first := disk.Run(before, rollback);
    FinishedMayRepeat(disk.s, Named(old(disk.s.vol)));
    second := disk.Run(before, rollback);
  }

  lemma FinishedMayRepeat(s: Store, d: Direction)
    requires Finished(s, d)
    ensures Permitted(s.vol, d)
  {
  }

  // ---- The results spelled out -------------------------------------------------------------

  /** What a visible journal allows, record by record: a `record.new` that differs from the record decides the
      direction; else work in one direction, once done, may be repeated or turned round, and from nothing only an
      apply begins. */
  lemma PermittedIff(s: Store, o: Target, d: Direction)
    requires Consistent(s, o)
    ensures var record, temp := RecordIn(s.vol.record), RecordIn(s.vol.temp);
            Permitted(s.vol, d) <==>
            && (s.vol.temp.Absent? || temp.Some?)
            && if temp.Some? && temp != record then d == temp.value.direction
               else if record.None? then d == Apply
               else record.value.direction == d || record.value.phase == Phase.Done
  {
  }

  /** The modes that go with a record, in either copy and in any combination a power loss may leave. */
  lemma ModesSpelled(s: Store, o: Target, record: Entry, mode: nat)
    requires Consistent(s, o) && record in {s.vol.record, s.dur.record} && mode in {s.vol.mode, s.dur.mode}
    ensures mode == 0x1FD || mode == 0x1C0
    ensures record.Absent? ==> mode == 0x1FD
    ensures record.File? ==>
              record.content.Whole? &&
              var r := record.content.record;
              && r.identity == o.identity && r.owner == o.owner
              && (r.phase == Phase.Done && r.direction == Apply ==> mode == 0x1C0)
              && (r.phase == Phase.Done && r.direction == Rollback ==> mode == 0x1FD)
  {
  }

  /** Write-ahead order: an apply closes 0775 to 0700 and a rollback opens it again, each under its own pending
      record in both copies. */
  lemma WriteAheadSpelled(c: Chmod)
    ensures WriteAhead(c) <==>
            exists identity, owner, direction ::
              && RecordIn(c.before.vol.record) == Some(Record(identity, owner, direction, Pending))
              && RecordIn(c.before.dur.record) == Some(Record(identity, owner, direction, Pending))
              && c.before.vol.mode == (if direction == Apply then 0x1FD else 0x1C0)
              && c.mode == if direction == Apply then 0x1C0 else 0x1FD
  {
    if WriteAhead(c) {
      var r := RecordIn(c.before.dur.record).value;
      assert RecordIn(c.before.vol.record) == Some(Record(r.identity, r.owner, r.direction, Pending));
    }
  }

  /** The selection names the target, in its original state. */
  predicate Original(before: Condition, o: Target, uid: nat) {
    && before.mode == 0x1FD && before.owner == uid && before.identity.device != 0 && before.identity.inode != 0
    && before.identity == o.identity && before.owner == o.owner
  }

  /** The whole result of a direction: in both copies the mode, the done record, and no `record.new`. */
  predicate Achieved(s: Store, o: Target, d: Direction) {
    && s.vol.mode == s.dur.mode == (if d == Apply then 0x1C0 else 0x1FD)
    && s.vol.temp == s.dur.temp == Absent
    && RecordIn(s.vol.record) == RecordIn(s.dur.record) == Some(Record(o.identity, o.owner, d, Phase.Done))
  }

  lemma FinishedIffAchieved(s: Store, o: Target, d: Direction)
    requires Consistent(s, o)
    ensures Finished(s, d) <==> Achieved(s, o, d)
  {
    if Achieved(s, o, d) {
      forall img | img in [s.vol, s.dur]
        ensures img.mode == PostMode(d) && img.temp.Absent?
        ensures RecordIn(img.record).Some? && Done(RecordIn(img.record).value, d)
      {
      }
    }
    assert s.vol in [s.vol, s.dur] && s.dur in [s.vol, s.dur];
  }

  /** A fault-free run, with every condition spelled out: it completes exactly when the selection is the original target
      and the visible journal allows the direction, it then achieves it, and otherwise the mode stays. */
  method RunDecides(disk: Disk, before: Condition, rollback: bool) returns (out: Outcome)
    requires disk.Valid() && FaultFree(disk.env, disk.clock)
    modifies disk
    ensures disk.Valid()
    ensures var d := if rollback then Rollback else Apply;
            var record, temp := RecordIn(old(disk.s).vol.record), RecordIn(old(disk.s).vol.temp);
            && (out.Completed? <==>
                  && Original(before, disk.target, disk.uid)
                  && (old(disk.s).vol.temp.Absent? || temp.Some?)
                  && if temp.Some? && temp != record then d == temp.value.direction
                     else if record.None? then d == Apply
                     else record.value.direction == d || record.value.phase == Phase.Done)
            && (out.Completed? ==> Achieved(disk.s, disk.target, d))
            && (!out.Completed? ==> disk.s.vol.mode == old(disk.s).vol.mode)
  {
    PermittedIff(disk.s, disk.target, DirectionOf(rollback));
    hide Consistent, Permitted, Finished, Numbered;
    out := disk.Run(before, rollback);
    FinishedIffAchieved(disk.s, disk.target, DirectionOf(rollback));
  }

  /** What is done in one direction can be turned round, either way. */
  method TurnRound(disk: Disk, before: Condition, d: Direction) returns (out: Outcome)
    requires disk.Valid() && FaultFree(disk.env, disk.clock)
    requires Achieved(disk.s, disk.target, d) && Original(before, disk.target, disk.uid)
    modifies disk
    ensures disk.Valid() && out.Completed? && Achieved(disk.s, disk.target, d.Opposite())
  {
    out := RunDecides(disk, before, d == Apply);
  }

  /** The life of a directory when nothing fails: applied, applied again, rolled back, rolled back again, applied. */
  method WholeLife(target: Target, env: nat -> Event, atomicRename: bool) returns (outs: seq<Outcome>, modes: seq<nat>)
    requires FaultFree(env, 0) && target.identity.device != 0 && target.identity.inode != 0
    ensures outs == [Completed, Completed, Completed, Completed, Completed]
    ensures modes == [0x1FD, 0x1C0, 0x1C0, 0x1FD, 0x1FD, 0x1C0]
  {
    var disk := new Disk(target, target.owner, env, atomicRename);
    var before := Condition(target.identity, target.owner, 0x1FD);
    hide Finished, Consistent, Numbered;
    modes := [disk.s.vol.mode];
    var a := RunDecides(disk, before, false);
    modes := modes + [disk.s.vol.mode];
    var b := RunDecides(disk, before, false);
    modes := modes + [disk.s.vol.mode];
    var c := RunDecides(disk, before, true);
    modes := modes + [disk.s.vol.mode];
    var d := RunDecides(disk, before, true);
    modes := modes + [disk.s.vol.mode];
    var e := RunDecides(disk, before, false);
    modes := modes + [disk.s.vol.mode];
    outs := [a, b, c, d, e];
  }
}
