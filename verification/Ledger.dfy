/** The generation-fenced aggregate store: two tables, the batch commit that folds file
    observations into them, the bounded collection of obsolete rows, and the measurement. */
module Ledger {
  import opened Basics
  import opened Aggregates

  const MAX_INT64: int := 0x7FFF_FFFF_FFFF_FFFF
  const BATCH_LIMIT: int := 128

  type int64 = x: int | -MAX_INT64 - 1 <= x <= MAX_INT64

  datatype Identity = Identity(device: string, inode: string)
  datatype File = File(id: Identity, logical: int64, alloc: int64)
  datatype Batch = Batch(directory: int64, generation: int64, ordinal: int64, complete: bool, files: seq<File>)

  // Table rows. Counters are mathematical integers here; that they stay within int64 is proved.
  datatype DirRow = DirRow(generation: int, nextBatch: int, files: int, logical: int, complete: bool)
  datatype Key = Key(directory: int, generation: int, id: Identity)
  datatype InodeRow = InodeRow(paths: int, logical: int, alloc: int, conflicting: bool)
  datatype Tables = Tables(dirs: map<int, DirRow>, inodes: map<Key, InodeRow>)

  datatype Totals = Totals(files: int, logical: int, alloc: int, uniqueInodes: int,
                           complete: bool, conflicting: bool)

  datatype CommitError = InvalidBatch | UnsupportedFile | NotBatchZero | StaleBatch | FileOverflow | LogicalOverflow
  datatype Outcome = Committed | Refused(error: CommitError)

  /** The batch was not refused under any of the first `n` rules. */
  ghost predicate Past(r: Outcome, n: nat) {
    && (n > 0 ==> r != Refused(InvalidBatch)) && (n > 1 ==> r != Refused(UnsupportedFile))
    && (n > 2 ==> r != Refused(NotBatchZero)) && (n > 3 ==> r != Refused(StaleBatch))
    && (n > 4 ==> r != Refused(FileOverflow))
  }

  const EMPTY: Tables := Tables(map[], map[])

  // ----- Commit -----

  predicate ValidFile(f: File) {
    f.id.device != "" && f.id.inode != "" && f.logical >= 0 && f.alloc >= 0
  }

  predicate ValidBatch(b: Batch) {
    b.directory > 0 && b.generation > 0 && b.ordinal >= 0 && |b.files| <= BATCH_LIMIT
  }

  /** The row that a batch builds on: the stored one if the generation continues, else a blank one. */
  function BaseRow(t: Tables, b: Batch): DirRow {
    if Starts(t, b) then DirRow(b.generation, 0, 0, 0, false) else t.dirs[b.directory]
  }

  /** The batch opens a generation other than the directory's recorded one. */
  predicate Starts(t: Tables, b: Batch) {
    b.directory !in t.dirs || t.dirs[b.directory].generation != b.generation
  }

  function SumLogical(fs: seq<File>): int {
    if fs == [] then 0 else SumLogical(fs[..|fs| - 1]) + fs[|fs| - 1].logical
  }

  predicate Accepts(t: Tables, b: Batch) {
    var base := BaseRow(t, b);
    && ValidBatch(b)
    && (forall f :: f in b.files ==> ValidFile(f))
    && (Starts(t, b) ==> b.ordinal == 0)
    && !base.complete && base.nextBatch == b.ordinal && base.nextBatch != MAX_INT64
    && base.files <= MAX_INT64 - |b.files|
    && (b.files == [] || base.logical + SumLogical(b.files) <= MAX_INT64)
  }

  /** INSERT ... ON CONFLICT DO UPDATE of one inode row. */
  function Upserted(rows: map<Key, InodeRow>, k: Key, f: File): InodeRow {
    if k in rows then
      var r := rows[k];
      InodeRow(r.paths + 1, r.logical, Max(r.alloc, f.alloc),
               r.conflicting || r.logical != f.logical || r.alloc != f.alloc)
    else
      InodeRow(1, f.logical, f.alloc, false)
  }

  function UpsertAll(rows: map<Key, InodeRow>, d: int, g: int, fs: seq<File>): map<Key, InodeRow> {
    if fs == [] then rows else
      var before := UpsertAll(rows, d, g, fs[..|fs| - 1]);
      var f := fs[|fs| - 1];
      before[Key(d, g, f.id) := Upserted(before, Key(d, g, f.id), f)]
  }

  /** The tables after a batch has been accepted and its transaction committed. */
  function Apply(t: Tables, b: Batch): Tables {
    var base := BaseRow(t, b);
    Tables(
      t.dirs[b.directory := DirRow(b.generation, b.ordinal + 1, base.files + |b.files|,
                                   base.logical + SumLogical(b.files), b.complete)],
      UpsertAll(t.inodes, b.directory, b.generation, b.files))
  }

  lemma {:induction false} SumLogicalNonNegative(fs: seq<File>)
    requires forall f :: f in fs ==> ValidFile(f)
    ensures SumLogical(fs) >= 0
  {
    if fs != [] {
      SumLogicalNonNegative(fs[..|fs| - 1]);
      assert fs[|fs| - 1] in fs;
    }
  }

  lemma {:induction false} SumLogicalPrefix(fs: seq<File>, n: nat)
    requires n <= |fs|
    requires forall f :: f in fs ==> ValidFile(f)
    ensures SumLogical(fs[..n]) <= SumLogical(fs)
    decreases |fs| - n
  {
    if n == |fs| {
      assert fs[..n] == fs;
    } else {
      SumLogicalPrefix(fs, n + 1);
      assert fs[..n + 1][..n] == fs[..n];
      assert fs[n] in fs;
    }
  }

  /** The open database. `Commit` writes as it goes, as the statements in the transaction do;
      `Transaction` is the caller's duty to roll back. */
  class Store {
    var dirs: map<int, DirRow>
    var inodes: map<Key, InodeRow>

    constructor ()
      ensures Contents() == EMPTY
    {
      dirs, inodes := map[], map[];
    }

    function Contents(): Tables
      reads this
    {
      Tables(dirs, inodes)
    }

    /** The first loop over the batch: every observation has an identity and sizes. */
    static method FilesSupported(fs: seq<File>) returns (ok: bool)
      ensures ok <==> forall f :: f in fs ==> ValidFile(f)
      ensures ok <==> forall f :: f in fs ==> f.id.device != "" && f.id.inode != "" && f.logical >= 0 && f.alloc >= 0
    {
      for i := 0 to |fs|
        invariant forall j :: 0 <= j < i ==> ValidFile(fs[j])
      {
        var f := fs[i];
        if f.id.device == "" || f.id.inode == "" || f.logical < 0 || f.alloc < 0 {
          assert f in fs && !ValidFile(f);
          return false;
        }
      }
      ok := true;
    }

    /** The second loop: the running logical sum and one upsert for each observation. */
    method Fold(b: Batch, start: int) returns (logical: int, fits: bool)
      requires forall f :: f in b.files ==> ValidFile(f)
      modifies `inodes
      ensures fits <==> b.files == [] || start + SumLogical(b.files) <= MAX_INT64
      ensures fits ==> logical == start + SumLogical(b.files)
      ensures fits ==> inodes == UpsertAll(old(inodes), b.directory, b.generation, b.files)
    {
      logical := start;
      for i := 0 to |b.files|
        invariant logical == start + SumLogical(b.files[..i])
        invariant i > 0 ==> logical <= MAX_INT64
        invariant inodes == UpsertAll(old(inodes), b.directory, b.generation, b.files[..i])
      {
        var f := b.files[i];
        assert b.files[..i + 1][..i] == b.files[..i];
        if logical > MAX_INT64 - f.logical {
          SumLogicalPrefix(b.files, i + 1);
          return logical, false;
        }
        logical := logical + f.logical;
        var k := Key(b.directory, b.generation, f.id);
        inodes := inodes[k := Upserted(inodes, k, f)];
      }
      assert b.files[..|b.files|] == b.files;
      fits := true;
    }

    /** Accepts a batch exactly under `Accepts`, and then leaves the tables in `Apply`; otherwise
        names exactly the first rule that the batch breaks. */
    method Commit(b: Batch) returns (r: Outcome)
      modifies this
      ensures r == Committed <==> old(Accepts(Contents(), b))
      ensures r == Refused(InvalidBatch) <==>
                b.directory <= 0 || b.generation <= 0 || b.ordinal < 0 || |b.files| > 128
      ensures r == Refused(UnsupportedFile) <==>
                b.directory > 0 && b.generation > 0 && b.ordinal >= 0 && |b.files| <= 128 &&
                exists f :: f in b.files && (f.id.device == "" || f.id.inode == "" || f.logical < 0 || f.alloc < 0)
      ensures Past(r, 2) ==> (r == Refused(NotBatchZero) <==> old(Starts(Contents(), b)) && b.ordinal != 0)
      ensures Past(r, 3) ==>
                var base := old(BaseRow(Contents(), b));
                r == Refused(StaleBatch) <==> base.complete || base.nextBatch != b.ordinal || b.ordinal == MAX_INT64
      ensures Past(r, 4) ==>
                (r == Refused(FileOverflow) <==> old(BaseRow(Contents(), b)).files + |b.files| > MAX_INT64)
      ensures Past(r, 5) ==>
                (r == Refused(LogicalOverflow) <==>
                 b.files != [] && old(BaseRow(Contents(), b)).logical + SumLogical(b.files) > MAX_INT64)
      ensures r == Committed ==> Contents() == old(Apply(Contents(), b))
    {
      ghost var t := Contents();
      if b.directory <= 0 || b.generation <= 0 || b.ordinal < 0 || |b.files| > BATCH_LIMIT {
        return Refused(InvalidBatch);
      }
      var supported := FilesSupported(b.files);
      if !supported {
        return Refused(UnsupportedFile);
      }
      var generation, next, files, logical, complete := 0, 0, 0, 0, false;
      if b.directory in dirs {
        var row := dirs[b.directory];
        generation, next, files, logical := row.generation, row.nextBatch, row.files, row.logical;
        complete := row.complete;
      }
      // A missing row leaves the generation zero, which no valid batch carries.
      if b.directory !in dirs || generation != b.generation {
        if b.ordinal != 0 {
          return Refused(NotBatchZero);
        }
        next, files, logical, complete := 0, 0, 0, false;
      }
      if complete || next != b.ordinal || next == MAX_INT64 {
        return Refused(StaleBatch);
      }
      if files > MAX_INT64 - |b.files| {
        return Refused(FileOverflow);
      }
      files := files + |b.files|;
      var fits;
      logical, fits := Fold(b, logical);
      if !fits {
        return Refused(LogicalOverflow);
      }
      dirs := dirs[b.directory := DirRow(b.generation, b.ordinal + 1, files, logical, b.complete)];
      r := Committed;
    }

    /** One caller transaction: any error, and a later failure of the caller's own fence,
        rolls the tables back. */
    method Transaction(b: Batch, fenced: bool) returns (r: Outcome)
      modifies this
      ensures r == Committed <==> old(Accepts(Contents(), b))
      ensures Contents() == if r == Committed && fenced then old(Apply(Contents(), b)) else old(Contents())
    {
      var dirs0, inodes0 := dirs, inodes;
      r := Commit(b);
      if r != Committed || !fenced {
        dirs, inodes := dirs0, inodes0;
      }
    }

    /** Deletes at most one batch of the rows that `Eligible` names; which ones is left open. */
    method Collect(directory: int, generation: int) returns (deleted: nat, ghost gone: set<Key>)
      modifies this
      ensures old(LegalCollection(Contents(), directory, generation, gone))
      ensures Contents() == old(Removed(Contents(), gone))
      ensures deleted == |gone|
    {
      ghost var t := Contents();
      var candidates := set k | k in inodes && k.directory == directory && k.generation == generation
                                && directory in dirs && dirs[directory].generation != generation;
      ghost var eligible := Eligible(t, directory, generation);
      assert candidates == eligible;
      deleted, gone := 0, {};
      while deleted < BATCH_LIMIT && candidates != {}
        invariant dirs == t.dirs && inodes == t.inodes - gone
        invariant gone <= eligible && candidates == eligible - gone
        invariant deleted == |gone| <= BATCH_LIMIT
      {
        var k :| k in candidates;
        candidates, inodes, deleted := candidates - {k}, inodes - {k}, deleted + 1;
        gone := gone + {k};
      }
      if candidates == {} {
        assert gone == eligible;
      }
      assert |eligible| == |gone| + |eligible - gone|;
    }
  }

  // ----- Collect -----

  /** The inode rows of one generation that is not its directory's current one. */
  ghost function Eligible(t: Tables, d: int, g: int): set<Key> {
    set k | k in t.inodes && k.directory == d && k.generation == g && d in t.dirs && t.dirs[d].generation != g
  }

  ghost predicate LegalCollection(t: Tables, d: int, g: int, gone: set<Key>) {
    && gone <= Eligible(t, d, g)
    && |gone| == if |Eligible(t, d, g)| <= BATCH_LIMIT then |Eligible(t, d, g)| else BATCH_LIMIT
  }

  ghost function Removed(t: Tables, gone: set<Key>): Tables {
    t.(inodes := t.inodes - gone)
  }

  // ----- Measure -----

  predicate Current(t: Tables, k: Key) {
    k in t.inodes && k.directory in t.dirs && t.dirs[k.directory].generation == k.generation
  }

  /** The join of the inode rows with their directory's current generation. */
  ghost function CurrentRows(t: Tables): set<Key> {
    set k | k in t.inodes && Current(t, k)
  }

  ghost function Identities(t: Tables): set<Identity> {
    set k | k in CurrentRows(t) :: k.id
  }

  ghost function Allocations(t: Tables, id: Identity): set<int> {
    set k | k in CurrentRows(t) && k.id == id :: t.inodes[k].alloc
  }

  ghost function Logicals(t: Tables, id: Identity): set<int> {
    set k | k in CurrentRows(t) && k.id == id :: t.inodes[k].logical
  }

  lemma GroupsInhabited(t: Tables, id: Identity)
    requires id in Identities(t)
    ensures Allocations(t, id) != {} && Logicals(t, id) != {}
  {
    var k :| k in CurrentRows(t) && k.id == id;
    assert t.inodes[k].alloc in Allocations(t, id);
    assert t.inodes[k].logical in Logicals(t, id);
  }

  ghost function GroupAllocated(t: Tables, id: Identity): int
    requires id in Identities(t)
  {
    GroupsInhabited(t, id);
    MaxOf(Allocations(t, id))
  }

  ghost predicate GroupConflicts(t: Tables, id: Identity)
    requires id in Identities(t)
  {
    GroupsInhabited(t, id);
    || (exists k :: k in CurrentRows(t) && k.id == id && t.inodes[k].conflicting)
    || MinOf(Logicals(t, id)) != MaxOf(Logicals(t, id))
    || MinOf(Allocations(t, id)) != MaxOf(Allocations(t, id))
  }

  ghost function DirFiles(t: Tables): map<int, int> {
    map d | d in t.dirs :: t.dirs[d].files
  }

  ghost function DirLogicals(t: Tables): map<int, int> {
    map d | d in t.dirs :: t.dirs[d].logical
  }

  ghost function Measure(t: Tables): Totals {
    Totals(
      SumOver(DirFiles(t)),
      SumOver(DirLogicals(t)),
      SumOver(map id | id in Identities(t) :: GroupAllocated(t, id)),
      |Identities(t)|,
      t.dirs != map[] && forall d :: d in t.dirs ==> t.dirs[d].complete,
      exists id :: id in Identities(t) && GroupConflicts(t, id))
  }
}
