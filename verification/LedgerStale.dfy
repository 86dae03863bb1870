/** Runs that reuse a generation whose rows survived: which totals are exact regardless, and exactly
    when the others are. */
module LedgerStale {
  import opened Aggregates
  import opened Basics
  import opened Ledger
  import opened LedgerHistory
  import opened LedgerProofs
  import opened LedgerMeasure
  import opened LedgerRuns

  type Rows = map<Key, InodeRow>

  predicate Opens(dirs: map<int, DirRow>, k: Key) {
    k.directory in dirs && dirs[k.directory].generation == k.generation
  }

  // ----- What survives, and what a clean store would hold -----

  ghost function RowsOf(rows: Rows, d: int, g: int): Rows {
    map k | k in rows && k.directory == d && k.generation == g :: rows[k]
  }

  ghost function Dropped(t: Tables, d: int, g: int): Tables {
    t.(inodes := map k | k in t.inodes && !(k.directory == d && k.generation == g) :: t.inodes[k])
  }

  ghost function Elsewhere(rows: Rows, d: int): Rows {
    map k | k in rows && k.directory != d :: rows[k]
  }

  /** The rows that were there when each directory's current generation was started. */
  ghost function Residue(es: seq<Event>): Rows {
    if es == [] then map[] else
      var p, e := es[..|es| - 1], es[|es| - 1];
      if Lands(Run(p), e) && Starts(Run(p), e.batch)
      then Elsewhere(Residue(p), e.batch.directory) + RowsOf(Run(p).inodes, e.batch.directory, e.batch.generation)
      else Residue(p)
  }

  /** The tables of a store in which every generation starts with no rows. */
  ghost function Clean(es: seq<Event>): Tables {
    if es == [] then EMPTY else
      var p, e := es[..|es| - 1], es[|es| - 1];
      if !Lands(Run(p), e) then Clean(p) else Apply(Cleared(Clean(p), e.batch), e.batch)
  }

  ghost function Cleared(t: Tables, b: Batch): Tables {
    if Starts(t, b) then Dropped(t, b.directory, b.generation) else t
  }

  lemma DropAgrees(t: Tables, log: seq<Batch>, b: Batch)
    requires Agrees(t, log)
    ensures Agrees(Cleared(t, b), log) && FreshStart(Cleared(t, b), b)
  {
    forall e, id | e in t.dirs ensures RowAgrees(Cleared(t, b), log, e, id) {
      assert RowAgrees(t, log, e, id);
    }
    forall e ensures DirAgreesAt(Cleared(t, b), log, e) {
      assert DirAgreesAt(t, log, e);
    }
  }

  /** Whether a batch is accepted, and what becomes of the directories, the inode rows do not say. */
  lemma DirsDecide(t: Tables, u: Tables, b: Batch)
    requires t.dirs == u.dirs
    ensures Accepts(t, b) == Accepts(u, b) && Starts(t, b) == Starts(u, b) && Apply(t, b).dirs == Apply(u, b).dirs
  {
  }

  lemma {:induction false} CleanAgrees(es: seq<Event>)
    requires PossibleRun(es)
    ensures Clean(es).dirs == Run(es).dirs && Agrees(Clean(es), Log(es))
  {
    if es == [] {
      EmptyAgrees();
    } else {
      var p, e := es[..|es| - 1], es[|es| - 1];
      CleanAgrees(p);
      if Lands(Run(p), e) {
        DropAgrees(Clean(p), Log(p), e.batch);
        DirsDecide(Run(p), Cleared(Clean(p), e.batch), e.batch);
        CommitFresh(Cleared(Clean(p), e.batch), Log(p), e.batch);
      } else {
        assert Log(p) + [] == Log(p);
      }
    }
  }

  // ----- Stored rows are survivors merged with clean rows -----

  function Merged(s: InodeRow, r: InodeRow): InodeRow {
    InodeRow(s.paths + r.paths, s.logical, Max(s.alloc, r.alloc),
             s.conflicting || r.conflicting || s.logical != r.logical || s.alloc != r.alloc)
  }

  ghost predicate Layered(rows: Rows, clean: Rows, residue: Rows, k: Key) {
    && (k in rows <==> k in clean || k in residue)
    && (k in rows ==> rows[k] == if k !in residue then clean[k]
                                 else if k !in clean then residue[k] else Merged(residue[k], clean[k]))
  }

  ghost predicate Layers(t: Tables, c: Tables, residue: Rows) {
    && t.dirs == c.dirs
    && (forall k :: k in residue ==> Opens(t.dirs, k))
    && (forall k :: Opens(t.dirs, k) ==> Layered(t.inodes, c.inodes, residue, k))
  }

  /** An upsert commutes with the merge. */
  lemma {:induction false} UpsertsLayer(rows: Rows, clean: Rows, residue: Rows, d: int, g: int, fs: seq<File>, k: Key)
    requires Layered(rows, clean, residue, k)
    ensures Layered(UpsertAll(rows, d, g, fs), UpsertAll(clean, d, g, fs), residue, k)
  {
    if fs != [] {
      UpsertsLayer(rows, clean, residue, d, g, fs[..|fs| - 1], k);
    }
  }

  lemma CommitLayers(t: Tables, c: Tables, residue: Rows, b: Batch)
    requires Layers(t, c, residue) && !Starts(t, b)
    ensures Layers(Apply(t, b), Apply(c, b), residue)
  {
    DirsDecide(t, c, b);
    forall k | Opens(Apply(t, b).dirs, k) ensures Layered(Apply(t, b).inodes, Apply(c, b).inodes, residue, k) {
      assert Opens(t.dirs, k);
      UpsertsLayer(t.inodes, c.inodes, residue, b.directory, b.generation, b.files, k);
    }
  }

  lemma StartLayers(t: Tables, c: Tables, residue: Rows, b: Batch)
    requires Layers(t, c, residue) && Starts(t, b)
    ensures Layers(Apply(t, b), Apply(Cleared(c, b), b),
                   Elsewhere(residue, b.directory) + RowsOf(t.inodes, b.directory, b.generation))
  {
    var c', residue' := Cleared(c, b), Elsewhere(residue, b.directory) + RowsOf(t.inodes, b.directory, b.generation);
    DirsDecide(t, c', b);
    forall k | Opens(Apply(t, b).dirs, k) ensures Layered(Apply(t, b).inodes, Apply(c', b).inodes, residue', k) {
      if k.directory != b.directory {
        assert Opens(t.dirs, k) && Layered(t.inodes, c.inodes, residue, k);
      }
      UpsertsLayer(t.inodes, c'.inodes, residue', b.directory, b.generation, b.files, k);
    }
  }

  lemma {:induction false} RunLayers(es: seq<Event>)
    requires PossibleRun(es)
    ensures Layers(Run(es), Clean(es), Residue(es))
  {
    if es != [] {
      var p, e := es[..|es| - 1], es[|es| - 1];
      RunLayers(p);
      if Lands(Run(p), e) {
        DirsDecide(Run(p), Clean(p), e.batch);
        if Starts(Run(p), e.batch) {
          StartLayers(Run(p), Clean(p), Residue(p), e.batch);
        } else {
          CommitLayers(Run(p), Clean(p), Residue(p), e.batch);
        }
      } else if e.CollectRows? {
        forall k | Opens(Run(p).dirs, k) ensures Layered(Run(es).inodes, Clean(es).inodes, Residue(es), k) {
          assert Layered(Run(p).inodes, Clean(p).inodes, Residue(p), k);
        }
      }
    }
  }

  // ----- What the residue does to the groups -----

  ghost function ResidueIds(residue: Rows): set<Identity> {
    set k | k in residue :: k.id
  }

  lemma LayeredIdentities(t: Tables, c: Tables, residue: Rows)
    requires Layers(t, c, residue)
    ensures Identities(t) == Identities(c) + ResidueIds(residue)
  {
    forall k ensures k in CurrentRows(t) <==> k in CurrentRows(c) || k in residue {
      if Opens(t.dirs, k) {
        assert Layered(t.inodes, c.inodes, residue, k);
      }
    }
  }

  /** No residue of the identity exceeds the amount. */
  ghost predicate NoneAbove(residue: Rows, id: Identity, a: int) {
    forall k :: k in residue && k.id == id ==> residue[k].alloc <= a
  }

  lemma LayeredAllocation(t: Tables, c: Tables, residue: Rows, id: Identity)
    requires Layers(t, c, residue) && id in Identities(t) && id in Identities(c)
    ensures GroupAllocated(c, id) <= GroupAllocated(t, id)
    ensures GroupAllocated(c, id) == GroupAllocated(t, id) <==> NoneAbove(residue, id, GroupAllocated(c, id))
  {
    GroupsInhabited(t, id);
    GroupsInhabited(c, id);
    var top :| top in CurrentRows(c) && top.id == id && c.inodes[top].alloc == GroupAllocated(c, id);
    assert Layered(t.inodes, c.inodes, residue, top);
    assert t.inodes[top].alloc in Allocations(t, id);
    forall k | k in residue && k.id == id ensures residue[k].alloc <= GroupAllocated(t, id) {
      assert Opens(t.dirs, k) && Layered(t.inodes, c.inodes, residue, k);
      assert t.inodes[k].alloc in Allocations(t, id);
    }
    if NoneAbove(residue, id, GroupAllocated(c, id)) {
      var k :| k in CurrentRows(t) && k.id == id && t.inodes[k].alloc == GroupAllocated(t, id);
      assert Opens(t.dirs, k) && Layered(t.inodes, c.inodes, residue, k);
      if k in c.inodes {
        assert c.inodes[k].alloc in Allocations(c, id);
      }
    }
  }

  ghost function GroupSizes(t: Tables): map<Identity, int> {
    map id | id in Identities(t) :: GroupAllocated(t, id)
  }

  /** No residue exceeds what the clean store has for its identity. */
  ghost predicate NothingAbove(c: Tables, residue: Rows) {
    forall id :: id in Identities(c) ==> NoneAbove(residue, id, GroupAllocated(c, id))
  }

  lemma LayeredTotal(t: Tables, c: Tables, residue: Rows)
    requires Layers(t, c, residue) && Identities(t) == Identities(c)
    ensures SumOver(GroupSizes(t)) == SumOver(GroupSizes(c)) <==> NothingAbove(c, residue)
  {
    forall id | id in Identities(c)
      ensures GroupAllocated(c, id) <= GroupAllocated(t, id)
      ensures GroupAllocated(c, id) == GroupAllocated(t, id) <==> NoneAbove(residue, id, GroupAllocated(c, id))
    {
      LayeredAllocation(t, c, residue, id);
    }
    SumOverMonotone(GroupSizes(c), GroupSizes(t));
    if NothingAbove(c, residue) {
      assert GroupSizes(c) == GroupSizes(t);
    } else {
      var id :| id in Identities(c) && !NoneAbove(residue, id, GroupAllocated(c, id));
      assert GroupSizes(c)[id] != GroupSizes(t)[id];
    }
  }

  /** Both counters of distinct objects are exact iff the residue adds no identity and no size. */
  lemma LayeredSizes(t: Tables, c: Tables, residue: Rows)
    requires Layers(t, c, residue)
    ensures (Measure(t).uniqueInodes == Measure(c).uniqueInodes && Measure(t).alloc == Measure(c).alloc) <==>
            (ResidueIds(residue) <= Identities(c) && NothingAbove(c, residue))
  {
    LayeredIdentities(t, c, residue);
    var more := ResidueIds(residue) - Identities(c);
    assert Identities(t) == Identities(c) + more;
    assert Measure(t).alloc == SumOver(GroupSizes(t)) && Measure(c).alloc == SumOver(GroupSizes(c));
    if more == {} {
      assert Identities(t) == Identities(c);
      LayeredTotal(t, c, residue);
    }
  }

  // ----- Conflicts -----

  /** Every current row of the identity stores these sizes and has seen no other. */
  ghost predicate Uniform(t: Tables, id: Identity, l: int, a: int) {
    forall k :: k in CurrentRows(t) && k.id == id ==>
                  !t.inodes[k].conflicting && t.inodes[k].logical == l && t.inodes[k].alloc == a
  }

  lemma NoConflictIsUniform(t: Tables, id: Identity) returns (l: int, a: int)
    requires id in Identities(t) && !GroupConflicts(t, id)
    ensures Uniform(t, id, l, a)
  {
    GroupsInhabited(t, id);
    l, a := MaxOf(Logicals(t, id)), MaxOf(Allocations(t, id));
    forall k | k in CurrentRows(t) && k.id == id
      ensures !t.inodes[k].conflicting && t.inodes[k].logical == l && t.inodes[k].alloc == a
    {
      assert t.inodes[k].logical in Logicals(t, id) && t.inodes[k].alloc in Allocations(t, id);
    }
  }

  lemma UniformIsNoConflict(t: Tables, id: Identity, l: int, a: int)
    requires id in Identities(t) && Uniform(t, id, l, a)
    ensures !GroupConflicts(t, id)
  {
    GroupsInhabited(t, id);
    assert forall x :: x in Logicals(t, id) ==> x == l;
    assert forall x :: x in Allocations(t, id) ==> x == a;
  }

  /** The residue of the identity saw only these sizes. */
  ghost predicate ResidueUniform(residue: Rows, id: Identity, l: int, a: int) {
    forall k :: k in residue && k.id == id ==>
                  !residue[k].conflicting && residue[k].logical == l && residue[k].alloc == a
  }

  lemma LayeredUniform(t: Tables, c: Tables, residue: Rows, id: Identity, l: int, a: int)
    requires Layers(t, c, residue)
    ensures Uniform(t, id, l, a) <==> Uniform(c, id, l, a) && ResidueUniform(residue, id, l, a)
  {
    forall k: Key | k.id == id && Opens(t.dirs, k)
      ensures Layered(t.inodes, c.inodes, residue, k)
      ensures k in CurrentRows(t) <==> k in CurrentRows(c) || k in residue
    {
    }
    if Uniform(t, id, l, a) {
      forall k | k in CurrentRows(c) && k.id == id
        ensures !c.inodes[k].conflicting && c.inodes[k].logical == l && c.inodes[k].alloc == a
      {
        assert Opens(t.dirs, k) && k in CurrentRows(t);
      }
      forall k | k in residue && k.id == id
        ensures !residue[k].conflicting && residue[k].logical == l && residue[k].alloc == a
      {
        assert Opens(t.dirs, k) && k in CurrentRows(t);
      }
    }
  }

  // ----- Exactness -----

  /** What the current observations must hold for the residue to go unnoticed: every surviving
      identity is observed again, at no smaller allocation, and unless there is a conflict anyway,
      with the very same sizes. */
  ghost predicate Harmless(residue: Rows, fs: seq<File>) {
    && ResidueIds(residue) <= Ids(fs)
    && (forall id :: id in Ids(fs) ==> NoneAbove(residue, id, LargestAllocation(fs, id)))
    && (SomeDiffer(fs) || forall f :: f in fs ==> ResidueUniform(residue, f.id, f.logical, f.alloc))
  }

  lemma CleanUniform(c: Tables, log: seq<Batch>, f: File)
    requires Agrees(c, log) && f in AllFiles(Active(log)) && !SomeDiffer(AllFiles(Active(log)))
    ensures f.id in Identities(c) && Uniform(c, f.id, f.logical, f.alloc)
  {
    SameIdentities(c, log);
    SameConflict(c, log);
    var l, a := NoConflictIsUniform(c, f.id);
    var k := ObservationRecorded(c, log, f);
    var obs := Observations(FilesOf(log, k.directory), f.id);
    forall h | h in obs ensures h.id == f.id {
      ObservationsMembers(FilesOf(log, k.directory), f.id, h);
    }
    UniformRow(c.inodes[k], obs, f);
  }

  /** Without a naive conflict, none is measured iff the residue repeats the current sizes. */
  lemma ConflictExact(t: Tables, c: Tables, residue: Rows, log: seq<Batch>)
    requires Layers(t, c, residue) && Agrees(c, log) && ResidueIds(residue) <= Ids(AllFiles(Active(log)))
    requires !SomeDiffer(AllFiles(Active(log)))
    ensures !Measure(t).conflicting <==> forall f :: f in AllFiles(Active(log)) ==>
              ResidueUniform(residue, f.id, f.logical, f.alloc)
  {
    var fs := AllFiles(Active(log));
    SameIdentities(c, log);
    LayeredIdentities(t, c, residue);
    forall f | f in fs ensures !GroupConflicts(t, f.id) <==> ResidueUniform(residue, f.id, f.logical, f.alloc) {
      CleanUniform(c, log, f);
      ConflictAt(t, c, residue, f);
    }
    if !Measure(t).conflicting {
      forall f | f in fs ensures ResidueUniform(residue, f.id, f.logical, f.alloc) {
        assert f.id in Identities(t);
      }
    }
  }

  lemma ConflictAt(t: Tables, c: Tables, residue: Rows, f: File)
    requires Layers(t, c, residue) && f.id in Identities(t) && f.id in Identities(c)
             && Uniform(c, f.id, f.logical, f.alloc)
    ensures !GroupConflicts(t, f.id) <==> ResidueUniform(residue, f.id, f.logical, f.alloc)
  {
    LayeredUniform(t, c, residue, f.id, f.logical, f.alloc);
    if ResidueUniform(residue, f.id, f.logical, f.alloc) {
      UniformIsNoConflict(t, f.id, f.logical, f.alloc);
    }
    if !GroupConflicts(t, f.id) {
      var l, a := NoConflictIsUniform(t, f.id);
      LayeredUniform(t, c, residue, f.id, l, a);
      var k :| k in CurrentRows(c) && k.id == f.id;
    }
  }

  /** A conflict among the current observations is always measured. */
  lemma ConflictNeverHidden(t: Tables, c: Tables, residue: Rows)
    requires Layers(t, c, residue) && Measure(c).conflicting
    ensures Measure(t).conflicting
  {
    var id :| id in Identities(c) && GroupConflicts(c, id);
    LayeredIdentities(t, c, residue);
    if !GroupConflicts(t, id) {
      var l, a := NoConflictIsUniform(t, id);
      LayeredUniform(t, c, residue, id, l, a);
      UniformIsNoConflict(c, id, l, a);
    }
  }

  /** Totals by directory are exact in every run, fresh or not. */
  lemma DirectoryTotalsAlwaysExact(es: seq<Event>)
    requires PossibleRun(es)
    ensures var m, n := Measure(Run(es)), NaiveMeasure(Log(es));
            m.files == n.files && m.logical == n.logical && m.complete == n.complete
  {
    CleanAgrees(es);
    MeasureIsNaive(Clean(es), Log(es));
  }

  /** Exactly when a run measures what its raw observations add up to. */
  lemma MeasuresNaiveIffHarmless(es: seq<Event>)
    requires PossibleRun(es)
    ensures Measure(Run(es)) == NaiveMeasure(Log(es)) <==> Harmless(Residue(es), AllFiles(Active(Log(es))))
  {
    var t, c, residue, log := Run(es), Clean(es), Residue(es), Log(es);
    var fs := AllFiles(Active(log));
    DirectoryTotalsAlwaysExact(es);
    CleanAgrees(es);
    RunLayers(es);
    MeasureIsNaive(c, log);
    SizesExact(t, c, residue, log);
    if SomeDiffer(fs) {
      ConflictNeverHidden(t, c, residue);
    } else if ResidueIds(residue) <= Ids(fs) {
      ConflictExact(t, c, residue, log);
    }
  }

  lemma SizesExact(t: Tables, c: Tables, residue: Rows, log: seq<Batch>)
    requires Layers(t, c, residue) && Agrees(c, log)
    ensures var m, n, fs := Measure(t), NaiveMeasure(log), AllFiles(Active(log));
            (m.uniqueInodes == n.uniqueInodes && m.alloc == n.alloc) <==>
            (ResidueIds(residue) <= Ids(fs) && forall id :: id in Ids(fs) ==>
                NoneAbove(residue, id, LargestAllocation(fs, id)))
  {
    LayeredSizes(t, c, residue);
    MeasureIsNaive(c, log);
    SameIdentities(c, log);
    forall id | id in Identities(c) ensures GroupAllocated(c, id) == LargestAllocation(AllFiles(Active(log)), id) {
      SameAllocation(c, log, id);
    }
  }

  /** A fresh run has no residue. */
  lemma {:induction false} FreshHasNoResidue(es: seq<Event>)
    requires PossibleRun(es) && FreshRun(es)
    ensures Residue(es) == map[]
  {
    if es != [] {
      FreshHasNoResidue(es[..|es| - 1]);
    }
  }
}
