/** Publishing an edited configuration: write a temporary file, sync it, rename it over the
    configuration, and confirm. Any step may fail, and the machine may stop between any two. */
module Publication {

  type Bytes = seq<int>
  const CHUNK: nat := 0x8000

  // ----- The disk, as far as it matters here -----

  datatype Inode = Old | New

  /** `config` is what the configuration name denotes now; until `settled`, a crash may still bring
      back the old binding. `written` is the temporary file's content, which survives a crash only
      once `synced`. No one else writes. */
  datatype Disk = Disk(config: Inode, settled: bool, written: Bytes, synced: bool, tempNamed: bool)

  const UNTOUCHED := Disk(Old, true, [], false, false)

  /** What the configuration file may contain after a crash in this state and a restart. */
  ghost predicate MayRecover(d: Disk, before: Bytes, b: Bytes) {
    || ((d.config == Old || !d.settled) && b == before)
    || (d.config == New && (d.synced ==> b == d.written))
  }

  /** The configuration name denotes the new file only when that file is completely durable. */
  ghost predicate Safe(d: Disk, data: Bytes) {
    && (d.config == New ==> d.synced && d.written == data)
    && (!d.settled ==> d.config == New)
  }

  /** At a safe point a crash leaves the complete old or the complete new bytes. */
  lemma SafeRecovers(d: Disk, data: Bytes, before: Bytes, b: Bytes)
    requires Safe(d, data) && MayRecover(d, before, b)
    ensures b == before || b == data
    ensures d.config == New && d.settled ==> b == data
    ensures d.config == Old ==> b == before
  {
  }

  // ----- Operations and the answers they get -----

  datatype Op =
    | CheckOriginal | CheckLock | CheckBudget | Nonce | CreateTemp | StatTemp | WriteTemp | SyncTemp
    | StatPrepared | CheckPrepared | StatHeld | StatNamed | CheckStamps | Context
    | Rename | StatPublished | CheckPublished | SyncParent | CloseTemp | Cleanup

  datatype Event = Event(op: Op, ok: bool)

  /** `count` is how much a write takes; `took` says that a failing rename happened after all. */
  datatype Answer = Answer(ok: bool, count: nat, took: bool)

  /** The steps that confirm a publication, in order, beginning with the rename itself. */
  const CONFIRMING: seq<Op> :=
    [Rename, StatPublished, CheckPublished, CheckLock, SyncParent, CheckPublished, CheckLock, CloseTemp, Context]

  /** The steps up to the open temporary file, and those from the end of the writing to the rename. */
  const BEGUN: seq<Event> := [Event(CheckOriginal, true), Event(CheckLock, true), Event(CheckBudget, true),
                              Event(Nonce, true), Event(CreateTemp, true), Event(StatTemp, true)]
  const SYNCED: seq<Event> := [Event(Context, true), Event(SyncTemp, true)]
  const RECHECKED: seq<Event> := [Event(StatPrepared, true), Event(CheckPrepared, true), Event(CheckOriginal, true),
                                  Event(CheckLock, true), Event(StatHeld, true), Event(StatNamed, true),
                                  Event(CheckStamps, true), Event(Context, true)]

  /** Everything before the rename took place, in order and with success. */
  ghost predicate Prepared(trace: seq<Event>) {
    var n := |trace| - 10;
    && n >= 6 && trace[..6] == BEGUN && Written(trace[6..n]) && trace[n..n + 2] == SYNCED && trace[n + 2..] == RECHECKED
  }

  /** Only successful writes, each after a context check of its own. */
  ghost predicate Written(events: seq<Event>) {
    && |events| % 2 == 0
    && forall i :: 0 <= i < |events| ==> events[i] == Event(if i % 2 == 0 then Context else WriteTemp, true)
  }

  datatype Result = Nothing | Uncertain | Saved

  /** What an outcome tells about the bytes after a crash: the old ones, the new ones, or one of them. */
  predicate Tells(r: Result, data: Bytes, before: Bytes, b: Bytes) {
    match r
    case Nothing => b == before
    case Saved => b == data
    case Uncertain => b == before || b == data
  }

  class World {
    const answer: nat -> Answer
    var cursor: nat
    var disk: Disk
    var trace: seq<Event>
    ghost var disks: seq<Disk>

    constructor (answer: nat -> Answer)
      ensures this.answer == answer && disk == UNTOUCHED && trace == [] && disks == [UNTOUCHED]
    {
      this.answer, cursor, disk, trace, disks := answer, 0, UNTOUCHED, [], [UNTOUCHED];
    }

    /** Every disk state so far was safe. */
    ghost predicate SafeSoFar(data: Bytes)
      reads this
    {
      Safe(disk, data) && forall d :: d in disks ==> Safe(d, data)
    }

    /** Every answer so far was a success, and every write took something. */
    ghost predicate Calm()
      reads this
    {
      forall i :: 0 <= i < cursor ==> answer(i).ok && answer(i).count > 0
    }

    method Record(op: Op, ok: bool, next: Disk)
      modifies this
      ensures cursor == old(cursor) + 1
      ensures disk == next && trace == old(trace) + [Event(op, ok)] && disks == old(disks) + [next]
    {
      cursor := cursor + 1;
      disk, trace, disks := next, trace + [Event(op, ok)], disks + [next];
    }

    /** A step that only looks. Identity checks compare with what the names denote. */
    method Look(op: Op, holds: bool) returns (ok: bool)
      modifies this
      ensures ok ==> holds
      ensures !ok && holds ==> !Calm()
      ensures cursor == old(cursor) + 1
      ensures disk == old(disk) && trace == old(trace) + [Event(op, ok)] && disks == old(disks) + [disk]
    {
      ok := answer(cursor).ok && holds;
      Record(op, ok, disk);
    }

    method Create() returns (ok: bool)
      modifies this
      ensures cursor == old(cursor) + 1 && (!ok ==> !Calm())
      ensures trace == old(trace) + [Event(CreateTemp, ok)] && disks == old(disks) + [disk]
      ensures disk == if ok then old(disk).(written := [], synced := false, tempNamed := true) else old(disk)
    {
      ok := answer(cursor).ok;
      Record(CreateTemp, ok, if ok then disk.(written := [], synced := false, tempNamed := true) else disk);
    }

    /** A write takes a prefix of the chunk, possibly none, and may fail nevertheless. */
    method Write(chunk: Bytes) returns (n: nat, ok: bool)
      modifies this
      ensures cursor == old(cursor) + 1 && (!ok || (n == 0 && chunk != []) ==> !Calm())
      ensures n <= |chunk| && trace == old(trace) + [Event(WriteTemp, ok)] && disks == old(disks) + [disk]
      ensures disk == old(disk).(written := old(disk).written + chunk[..n], synced := false)
    {
      ok := answer(cursor).ok;
      n := if answer(cursor).count <= |chunk| then answer(cursor).count else |chunk|;
      Record(WriteTemp, ok, disk.(written := disk.written + chunk[..n], synced := false));
    }

    method SyncFile() returns (ok: bool)
      modifies this
      ensures cursor == old(cursor) + 1 && (!ok ==> !Calm())
      ensures trace == old(trace) + [Event(SyncTemp, ok)] && disks == old(disks) + [disk]
      ensures disk == if ok then old(disk).(synced := true) else old(disk)
    {
      ok := answer(cursor).ok;
      Record(SyncTemp, ok, if ok then disk.(synced := true) else disk);
    }

    /** The rename is atomic, but a reported failure does not prove that it did not happen. */
    method Replace() returns (ok: bool)
      modifies this
      ensures cursor == old(cursor) + 1 && (!ok ==> !Calm())
      ensures trace == old(trace) + [Event(Rename, ok)] && disks == old(disks) + [disk]
      ensures disk == old(disk) || disk == old(disk).(config := New, settled := false, tempNamed := false)
      ensures ok ==> disk == old(disk).(config := New, settled := false, tempNamed := false)
    {
      ok := answer(cursor).ok;
      Record(Rename, ok, if ok || answer(cursor).took
          then disk.(config := New, settled := false, tempNamed := false) else disk);
    }

    method SyncDirectory() returns (ok: bool)
      modifies this
      ensures cursor == old(cursor) + 1 && (!ok ==> !Calm())
      ensures trace == old(trace) + [Event(SyncParent, ok)] && disks == old(disks) + [disk]
      ensures disk == if ok then old(disk).(settled := true) else old(disk)
    {
      ok := answer(cursor).ok;
      Record(SyncParent, ok, if ok then disk.(settled := true) else disk);
    }

    /** The deferred removal of the temporary name, if it still denotes the temporary file. */
    method Remove()
      modifies this
      ensures cursor == old(cursor) + 1
      ensures exists ok :: trace == old(trace) + [Event(Cleanup, ok)]
      ensures disks == old(disks) + [disk]
      ensures disk == old(disk) || disk == old(disk).(tempNamed := false)
    {
      var ok := answer(cursor).ok;
      Record(Cleanup, ok, if ok then disk.(tempNamed := false) else disk);
    }
  }

  ghost predicate NoRename(trace: seq<Event>) {
    forall i :: 0 <= i < |trace| ==> trace[i].op != Rename
  }

  /** Nothing has been renamed and the old configuration is in place. */
  ghost predicate Preparing(w: World, data: Bytes)
    reads w
  {
    NoRename(w.trace) && w.SafeSoFar(data) && w.disk.config == Old && w.disk.settled
  }

  method Passes(w: World, data: Bytes, op: Op, holds: bool) returns (ok: bool)
    requires Preparing(w, data) && op != Rename
    modifies w
    ensures Preparing(w, data) && w.disk == old(w.disk) && (ok ==> holds) && (!ok && holds ==> !w.Calm())
    ensures w.trace == old(w.trace) + [Event(op, ok)]
  {
    ok := w.Look(op, holds);
  }

  lemma WrittenMore(before: seq<Event>, events: seq<Event>)
    requires Written(events)
    ensures Written(events + [Event(Context, true), Event(WriteTemp, true)])
    ensures before + events + [Event(Context, true)] + [Event(WriteTemp, true)] ==
            before + (events + [Event(Context, true), Event(WriteTemp, true)])
  {
  }

  /** The write loop: chunks of at most 32 KiB with a context check before each, short writes continued,
      no progress refused. */
  method WriteAll(w: World, data: Bytes) returns (ok: bool, ghost events: seq<Event>)
    requires Preparing(w, data) && w.disk.written == []
    modifies w
    ensures Preparing(w, data)
    ensures ok ==> w.trace == old(w.trace) + events && Written(events) && |data| <= 32 * 1024 * (|events| / 2)
    ensures ok ==> w.disk.written == data && w.disk.tempNamed == old(w.disk.tempNamed)
    ensures !ok ==> !w.Calm()
  {
    var offset := 0;
    events := [];
    while offset < |data|
      invariant 0 <= offset <= |data| && w.disk.written == data[..offset] && offset <= 32 * 1024 * (|events| / 2)
      invariant w.trace == old(w.trace) + events && Written(events)
      invariant Preparing(w, data) && w.disk.tempNamed == old(w.disk.tempNamed)
      decreases |data| - offset
    {
      var active := Passes(w, data, Context, true);
      if !active {
        return false, events;
      }
      var end := if offset + CHUNK <= |data| then offset + CHUNK else |data|;
      var n, fine := w.Write(data[offset..end]);
      assert data[..offset + n] == data[..offset] + data[offset..end][..n];
      offset := offset + n;
      if !fine || n == 0 {
        return false, events;
      }
      WrittenMore(old(w.trace), events);
      events := events + [Event(Context, true), Event(WriteTemp, true)];
    }
    assert data[..|data|] == data;
    ok := true;
  }

  /** The checks and the creation of the temporary file. `cleanup` says that its removal has been deferred. */
  method Begin(w: World, data: Bytes) returns (ok: bool, cleanup: bool)
    requires Preparing(w, data)
    modifies w
    ensures Preparing(w, data)
    ensures ok ==> w.disk.written == [] && w.disk.tempNamed && cleanup && w.trace == old(w.trace) + BEGUN
    ensures !ok ==> !w.Calm()
  {
    cleanup := false;
    ok := Passes(w, data, CheckOriginal, w.disk.config == Old);
    if !ok { return; }
    ok := Passes(w, data, CheckLock, true);
    if !ok { return; }
    ok := Passes(w, data, CheckBudget, true);
    if !ok { return; }
    ok := Passes(w, data, Nonce, true);
    if !ok { return; }
    ok := w.Create();
    if !ok { return; }
    ok := Passes(w, data, StatTemp, true);
    cleanup := ok;
  }

  /** The written file is complete and nothing else has changed since the sync. */
  method RecheckFile(w: World, data: Bytes) returns (ok: bool)
    requires Preparing(w, data) && w.disk.written == data
    modifies w
    ensures Preparing(w, data) && w.disk == old(w.disk)
    ensures ok ==> w.trace == old(w.trace) + RECHECKED[..4]
    ensures !ok ==> !w.Calm()
  {
    ok := Passes(w, data, StatPrepared, true);
    if !ok { return; }
    ok := Passes(w, data, CheckPrepared, |w.disk.written| == |data|);
    if !ok { return; }
    ok := Passes(w, data, CheckOriginal, w.disk.config == Old);
    if !ok { return; }
    ok := Passes(w, data, CheckLock, true);
  }

  /** The held and the named temporary file are the same. */
  method RecheckNames(w: World, data: Bytes) returns (ok: bool)
    requires Preparing(w, data) && w.disk.tempNamed
    modifies w
    ensures Preparing(w, data) && w.disk == old(w.disk)
    ensures ok ==> w.trace == old(w.trace) + RECHECKED[4..]
    ensures !ok ==> !w.Calm()
  {
    ok := Passes(w, data, StatHeld, true);
    if !ok { return; }
    ok := Passes(w, data, StatNamed, true);
    if !ok { return; }
    ok := Passes(w, data, CheckStamps, w.disk.tempNamed);
    if !ok { return; }
    ok := Passes(w, data, Context, true);
  }

  /** The checks on the written file just before the rename. */
  method Recheck(w: World, data: Bytes) returns (ok: bool)
    requires Preparing(w, data) && w.disk.written == data && w.disk.tempNamed
    modifies w
    ensures Preparing(w, data) && w.disk == old(w.disk)
    ensures ok ==> w.trace == old(w.trace) + RECHECKED
    ensures !ok ==> !w.Calm()
  {
    ok := RecheckFile(w, data);
    if !ok { return; }
    ok := RecheckNames(w, data);
    assert old(w.trace) + RECHECKED[..4] + RECHECKED[4..] == old(w.trace) + RECHECKED;
  }

  /** Everything before the rename. */
  method Prepare(w: World, data: Bytes) returns (ok: bool, cleanup: bool)
    requires Preparing(w, data) && w.trace == []
    modifies w
    ensures Preparing(w, data)
    ensures ok ==> w.disk.synced && w.disk.written == data && cleanup && Prepared(w.trace)
    ensures !ok ==> !w.Calm()
  {
    ok, cleanup := Begin(w, data);
    if !ok { return; }
    ghost var events;
    ok, events := WriteAll(w, data);
    if !ok { return; }
    ok := Passes(w, data, Context, true);
    if !ok { return; }
    ok := w.SyncFile();
    if !ok { return; }
    ok := Recheck(w, data);
    PreparedIs(events);
  }

  lemma PreparedIs(events: seq<Event>)
    requires Written(events)
    ensures Prepared([] + BEGUN + events + [Event(Context, true)] + [Event(SyncTemp, true)] + RECHECKED)
  {
    var trace := [] + BEGUN + events + [Event(Context, true)] + [Event(SyncTemp, true)] + RECHECKED;
    var n := |trace| - 10;
    assert trace[..6] == BEGUN && trace[6..n] == events && trace[n..n + 2] == SYNCED && trace[n + 2..] == RECHECKED;
  }

  // ----- The rename and everything after it -----

  /** The trace from `start` on is the first `k` confirming steps, the last of them ending as told
      and the others having succeeded. */
  ghost predicate Through(trace: seq<Event>, start: nat, k: nat, ok: bool) {
    && k <= |CONFIRMING| && |trace| == start + k
    && (forall i :: start <= i < |trace| ==> trace[i].op == CONFIRMING[i - start])
    && (forall i :: start <= i < |trace| - 1 ==> trace[i].ok)
    && (k > 0 ==> trace[|trace| - 1].ok == ok)
  }

  lemma OneFurther(trace: seq<Event>, start: nat, k: nat, ok: bool)
    requires Through(trace, start, k, true) && k < |CONFIRMING|
    ensures Through(trace + [Event(CONFIRMING[k], ok)], start, k + 1, ok)
  {
    var next := trace + [Event(CONFIRMING[k], ok)];
    assert forall i :: 0 <= i < |trace| ==> next[i] == trace[i];
    assert forall i :: start <= i < |trace| ==> trace[i].ok;
  }

  method Confirms(w: World, data: Bytes, op: Op, holds: bool, ghost start: nat, ghost k: nat) returns (ok: bool)
    requires w.SafeSoFar(data) && Through(w.trace, start, k, true) && k < |CONFIRMING| && op == CONFIRMING[k]
    modifies w
    ensures old(w.trace) <= w.trace
    ensures w.SafeSoFar(data) && w.disk == old(w.disk) && Through(w.trace, start, k + 1, ok)
    ensures !ok && holds ==> !w.Calm()
  {
    OneFurther(w.trace, start, k, true);
    OneFurther(w.trace, start, k, false);
    ok := w.Look(op, holds);
  }

  /** The rename itself, whose failure proves nothing. */
  method Attempt(w: World, data: Bytes) returns (ok: bool)
    requires w.SafeSoFar(data) && w.disk.config == Old && w.disk.settled && w.disk.synced && w.disk.written == data
    modifies w
    ensures old(w.trace) <= w.trace && w.SafeSoFar(data) && Through(w.trace, |old(w.trace)|, 1, ok)
    ensures ok ==> w.disk.config == New && !w.disk.tempNamed
    ensures !ok ==> !w.Calm()
  {
    OneFurther(w.trace, |w.trace|, 0, true);
    OneFurther(w.trace, |w.trace|, 0, false);
    ok := w.Replace();
  }

  method SyncedDirectory(w: World, data: Bytes, ghost start: nat) returns (ok: bool)
    requires w.SafeSoFar(data) && Through(w.trace, start, 4, true) && w.disk.config == New && !w.disk.tempNamed
    modifies w
    ensures old(w.trace) <= w.trace && w.SafeSoFar(data) && Through(w.trace, start, 5, ok)
    ensures ok ==> w.disk.config == New && w.disk.settled && !w.disk.tempNamed
    ensures !ok ==> !w.Calm()
  {
    OneFurther(w.trace, start, 4, true);
    OneFurther(w.trace, start, 4, false);
    ok := w.SyncDirectory();
  }

  /** From the rename to the directory sync; `k` counts the steps taken. */
  method ReplaceAndSync(w: World, data: Bytes) returns (ok: bool, ghost k: nat)
    requires w.SafeSoFar(data) && w.disk.config == Old && w.disk.settled && w.disk.synced && w.disk.written == data
    modifies w
    ensures old(w.trace) <= w.trace && w.SafeSoFar(data) && 0 < k && Through(w.trace, |old(w.trace)|, k, ok)
    ensures ok ==> k == 5 && w.disk.config == New && w.disk.settled && !w.disk.tempNamed
    ensures !ok ==> !w.Calm()
  {
    ghost var start := |w.trace|;
    k := 1;
    ok := Attempt(w, data);
    if !ok { return; }
    k := 2;
    ok := Confirms(w, data, StatPublished, true, start, 1);
    if !ok { return; }
    k := 3;
    ok := Confirms(w, data, CheckPublished, w.disk.config == New, start, 2);
    if !ok { return; }
    k := 4;
    ok := Confirms(w, data, CheckLock, true, start, 3);
    if !ok { return; }
    k := 5;
    ok := SyncedDirectory(w, data, start);
  }

  /** The four steps after the directory sync. */
  method Conclude(w: World, data: Bytes, ghost start: nat) returns (ok: bool, ghost k: nat)
    requires w.SafeSoFar(data) && Through(w.trace, start, 5, true) && w.disk.config == New
    modifies w
    ensures old(w.trace) <= w.trace && w.SafeSoFar(data) && w.disk == old(w.disk)
    ensures 5 < k && Through(w.trace, start, k, ok) && (ok ==> k == |CONFIRMING|)
    ensures !ok ==> !w.Calm()
  {
    k := 6;
    ok := Confirms(w, data, CheckPublished, w.disk.config == New, start, 5);
    if !ok { return; }
    k := 7;
    ok := Confirms(w, data, CheckLock, true, start, 6);
    if !ok { return; }
    k := 8;
    ok := Confirms(w, data, CloseTemp, true, start, 7);
    if !ok { return; }
    k := 9;
    ok := Confirms(w, data, Context, true, start, 8);
  }

  method Confirm(w: World, data: Bytes) returns (r: Result, ghost k: nat)
    requires w.SafeSoFar(data) && w.disk.config == Old && w.disk.settled && w.disk.synced && w.disk.written == data
    modifies w
    ensures old(w.trace) <= w.trace && w.SafeSoFar(data) && (r == Saved || r == Uncertain)
    ensures 0 < k && Through(w.trace, |old(w.trace)|, k, r == Saved)
    ensures r == Saved ==> k == |CONFIRMING| && w.disk.config == New && w.disk.settled && !w.disk.tempNamed
    ensures r != Saved ==> !w.Calm()
  {
    ghost var start := |w.trace|;
    var ok;
    ok, k := ReplaceAndSync(w, data);
    if ok {
      ok, k := Conclude(w, data, start);
    }
    r := if ok then Saved else Uncertain;
  }

  /** The three outcomes, exactly. Nothing: no rename was attempted. Otherwise every check before it
      succeeded, in order and the later ones since the sync, and the steps from the attempt on are the
      confirming ones in order, all successful for Saved, ending in a failure for Uncertain, and then the
      cleanup. Every disk state on the way is safe: a crash in it leaves the complete old or the complete
      new bytes, and a crash at the end what the outcome tells. And no check refuses by itself: when
      nothing fails, the result is Saved. */
  method Publish(w: World, data: Bytes) returns (r: Result, ghost attempt: nat, ghost k: nat)
    requires w.disk == UNTOUCHED && w.trace == [] && w.disks == [UNTOUCHED]
    modifies w
    ensures r == Nothing <==> NoRename(w.trace)
    ensures r != Nothing ==>
              && |w.trace| == attempt + k + 1 && w.trace[attempt + k].op == Cleanup
              && Prepared(w.trace[..attempt]) && NoRename(w.trace[..attempt])
              && 0 < k && Through(w.trace[..attempt + k], attempt, k, r == Saved)
              && (r == Saved ==> k == |CONFIRMING|)
    ensures forall d :: d in w.disks ==> Safe(d, data)
    ensures Safe(w.disk, data)
    ensures r == Nothing ==> w.disk.config == Old && w.disk.settled
    ensures r == Saved ==> w.disk.config == New && w.disk.settled && !w.disk.tempNamed
    ensures w.Calm() ==> r == Saved
    ensures forall d, before, b :: d in w.disks && MayRecover(d, before, b) ==> b == before || b == data
    ensures forall before, b :: MayRecover(w.disk, before, b) ==> Tells(r, data, before, b)
  {
    var ok, cleanup := Prepare(w, data);
    ghost var prepared := w.trace;
    attempt, k, r := |w.trace|, 0, Nothing;
    if ok {
      r, k := Confirm(w, data);
      assert w.trace[attempt].op == Rename;
    }
    if cleanup {
      ghost var before := w.trace;
      w.Remove();
      assert w.trace[..|before|] == before;
      assert r != Nothing ==> w.trace[attempt] == before[attempt];
    }
    assert r != Nothing ==> w.trace[..attempt] == prepared;
    forall d, before, b | d in w.disks && MayRecover(d, before, b) ensures b == before || b == data {
      SafeRecovers(d, data, before, b);
    }
    forall before, b | MayRecover(w.disk, before, b) ensures Tells(r, data, before, b) {
      SafeRecovers(w.disk, data, before, b);
    }
  }

  /** Why the temporary file is synced first: a rename that overtakes the data lets a crash leave
      bytes that are neither the old nor the new configuration. */
  lemma UnsyncedRenameIsUnsafe(data: Bytes, before: Bytes)
    ensures exists b :: MayRecover(Disk(New, false, data, false, false), before, b) && b != before && b != data
  {
    var b := if |before| > |data| then before + [0] else data + [0];
    assert |b| > |before| && |b| > |data|;
    assert MayRecover(Disk(New, false, data, false, false), before, b);
  }
}
