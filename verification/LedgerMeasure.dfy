/** Tables that agree with a log measure to the naive totals of that log. */
module LedgerMeasure {
  import opened Aggregates
  import opened Ledger
  import opened LedgerHistory
  import opened LedgerProofs

  // ----- Sums by directory -----

  ghost function Dirs(bs: seq<Batch>): set<int> {
    set b | b in bs :: b.directory
  }

  ghost function FileCounts(bs: seq<Batch>): map<int, int> {
    map d | d in Dirs(bs) :: |AllFiles(Only(bs, d))|
  }

  ghost function LogicalSums(bs: seq<Batch>): map<int, int> {
    map d | d in Dirs(bs) :: SumLogical(AllFiles(Only(bs, d)))
  }

  lemma OnlyAbsent(bs: seq<Batch>, d: int)
    ensures Only(bs, d) == [] <==> d !in Dirs(bs)
  {
    if Only(bs, d) != [] {
      OnlyMembers(bs, d, Only(bs, d)[0]);
    } else if d in Dirs(bs) {
      var b :| b in bs && b.directory == d;
      OnlyMembers(bs, d, b);
    }
  }

  lemma DirsAppend(p: seq<Batch>, b: Batch)
    ensures Dirs(p + [b]) == Dirs(p) + {b.directory}
  {
  }

  /** One more batch changes the share of its own directory only. */
  lemma ShareAppend(p: seq<Batch>, b: Batch, e: int)
    ensures AllFiles(Only(p + [b], e)) == AllFiles(Only(p, e)) + if e == b.directory then b.files else []
  {
    OnlyAppend(p, b, e);
    if e == b.directory {
      AllFilesAppend(Only(p, e), b);
    } else {
      assert Only(p + [b], e) == Only(p, e);
    }
  }

  lemma SharesAppend(p: seq<Batch>, b: Batch)
    ensures SumOver(FileCounts(p + [b])) == SumOver(FileCounts(p)) + |b.files|
    ensures SumOver(LogicalSums(p + [b])) == SumOver(LogicalSums(p)) + SumLogical(b.files)
  {
    var d: int := b.directory;
    var m, n := FileCounts(p), FileCounts(p + [b]);
    var l, k := LogicalSums(p), LogicalSums(p + [b]);
    DirsAppend(p, b);
    OnlyAbsent(p, d);
    ShareAppend(p, b, d);
    SumLogicalConcat(AllFiles(Only(p, d)), b.files);
    forall e | e in m && e != d ensures n[e] == m[e] && k[e] == l[e] {
      ShareAppend(p, b, e);
      assert AllFiles(Only(p + [b], e)) == AllFiles(Only(p, e));
    }
    SumOverGrow(m, n, d, |b.files|);
    SumOverGrow(l, k, d, SumLogical(b.files));
  }

  lemma {:induction false} SumsByDirectory(bs: seq<Batch>)
    ensures SumOver(FileCounts(bs)) == |AllFiles(bs)|
    ensures SumOver(LogicalSums(bs)) == SumLogical(AllFiles(bs))
  {
    if bs == [] {
      assert FileCounts(bs) == map[] && LogicalSums(bs) == map[];
    } else {
      var p, b := bs[..|bs| - 1], bs[|bs| - 1];
      assert bs == p + [b];
      SumsByDirectory(p);
      SharesAppend(p, b);
      SumLogicalConcat(AllFiles(p), b.files);
    }
  }

  lemma DirKeys(t: Tables, log: seq<Batch>)
    requires Agrees(t, log)
    ensures t.dirs.Keys == Dirs(Active(log))
  {
    forall d ensures d in t.dirs <==> d in Dirs(Active(log)) {
      assert DirAgreesAt(t, log, d);
      OnlyAbsent(Active(log), d);
    }
  }

  /** Each directory's counters are the sums over its own counted batches. */
  lemma DirShares(t: Tables, log: seq<Batch>)
    requires Agrees(t, log)
    ensures DirFiles(t) == FileCounts(Active(log)) && DirLogicals(t) == LogicalSums(Active(log))
  {
    var bs := Active(log);
    DirKeys(t, log);
    forall d | d in t.dirs
      ensures t.dirs[d].files == |AllFiles(Only(bs, d))| && t.dirs[d].logical == SumLogical(AllFiles(Only(bs, d)))
    {
      assert DirAgreesAt(t, log, d);
    }
  }

  lemma DirTotals(t: Tables, log: seq<Batch>)
    requires Agrees(t, log)
    ensures Measure(t).files == NaiveMeasure(log).files
    ensures Measure(t).logical == NaiveMeasure(log).logical
  {
    DirShares(t, log);
    SumsByDirectory(Active(log));
  }

  lemma CompletionOf(t: Tables, log: seq<Batch>, d: int)
    requires Agrees(t, log) && d in t.dirs
    ensures t.dirs[d].complete <==> Delivered(Active(log), d)
  {
    var own := Only(Active(log), d);
    assert DirAgreesAt(t, log, d);
    assert InOrder(t.dirs[d], own);
    if t.dirs[d].complete {
      var c := own[|own| - 1];
      OnlyMembers(Active(log), d, c);
    }
    if Delivered(Active(log), d) {
      var c :| c in Active(log) && c.directory == d && c.complete;
      OnlyMembers(Active(log), d, c);
      var i :| 0 <= i < |own| && own[i] == c;
    }
  }

  lemma DirCompletion(t: Tables, log: seq<Batch>)
    requires Agrees(t, log)
    ensures Measure(t).complete == NaiveMeasure(log).complete
  {
    var bs := Active(log);
    DirKeys(t, log);
    forall d | d in Dirs(bs) ensures t.dirs[d].complete <==> Delivered(bs, d) {
      CompletionOf(t, log, d);
    }
    EachDirectory(t, bs);
  }

  /** From "each directory" to "each batch's directory". */
  lemma EachDirectory(t: Tables, bs: seq<Batch>)
    requires t.dirs.Keys == Dirs(bs)
    requires forall d :: d in Dirs(bs) ==> (t.dirs[d].complete <==> Delivered(bs, d))
    ensures (t.dirs != map[] && forall d :: d in t.dirs ==> t.dirs[d].complete) <==> AllComplete(bs)
  {
    assert t.dirs == map[] <==> t.dirs.Keys == {};
    if bs != [] {
      assert bs[0].directory in Dirs(bs);
    }
    if AllComplete(bs) {
      forall d | d in t.dirs ensures t.dirs[d].complete {
        var b :| b in bs && b.directory == d;
      }
    }
  }

  // ----- Identities -----

  lemma FileInDirectory(bs: seq<Batch>, f: File) returns (d: int)
    requires f in AllFiles(bs)
    ensures d in Dirs(bs) && f in AllFiles(Only(bs, d))
  {
    AllFilesMembers(bs, f);
    var b :| b in bs && f in b.files;
    d := b.directory;
    OnlyMembers(bs, d, b);
    AllFilesMembers(Only(bs, d), f);
  }

  lemma DirectoryInFiles(bs: seq<Batch>, d: int, f: File)
    requires f in AllFiles(Only(bs, d))
    ensures f in AllFiles(bs)
  {
    AllFilesMembers(Only(bs, d), f);
    var b :| b in Only(bs, d) && f in b.files;
    OnlyMembers(bs, d, b);
    AllFilesMembers(bs, f);
  }

  lemma FilesByDirectory(t: Tables, log: seq<Batch>, f: File)
    requires Agrees(t, log)
    ensures f in AllFiles(Active(log)) <==> exists d :: d in t.dirs && f in FilesOf(log, d)
  {
    DirKeys(t, log);
    if f in AllFiles(Active(log)) {
      var d := FileInDirectory(Active(log), f);
      assert d in t.dirs && f in FilesOf(log, d);
    }
    if exists d :: d in t.dirs && f in FilesOf(log, d) {
      var d :| d in t.dirs && f in FilesOf(log, d);
      DirectoryInFiles(Active(log), d, f);
    }
  }

  /** Every current row stands for at least one observation, and its maximum is attained there. */
  lemma RowObserved(t: Tables, log: seq<Batch>, k: Key) returns (top: File)
    requires Agrees(t, log) && k in CurrentRows(t)
    ensures top in AllFiles(Active(log)) && top.id == k.id && top.alloc == t.inodes[k].alloc
  {
    var d := k.directory;
    assert RowAgrees(t, log, d, k.id);
    var obs := Observations(FilesOf(log, d), k.id);
    top :| top in obs && top.alloc == t.inodes[k].alloc;
    ObservationsMembers(FilesOf(log, d), k.id, top);
    FilesByDirectory(t, log, top);
  }

  /** Every observation that counts is inside some current row. */
  lemma ObservationRecorded(t: Tables, log: seq<Batch>, f: File) returns (k: Key)
    requires Agrees(t, log) && f in AllFiles(Active(log))
    ensures k in CurrentRows(t) && k.id == f.id
    ensures f in Observations(FilesOf(log, k.directory), f.id)
    ensures Summarises(t.inodes[k], Observations(FilesOf(log, k.directory), f.id))
  {
    FilesByDirectory(t, log, f);
    var d :| d in t.dirs && f in FilesOf(log, d);
    ObservationsMembers(FilesOf(log, d), f.id, f);
    assert RowAgrees(t, log, d, f.id);
    k := Key(d, t.dirs[d].generation, f.id);
  }

  lemma SameIdentities(t: Tables, log: seq<Batch>)
    requires Agrees(t, log)
    ensures Identities(t) == Ids(AllFiles(Active(log)))
  {
    var fs := AllFiles(Active(log));
    forall id | id in Identities(t) ensures id in Ids(fs) {
      var k :| k in CurrentRows(t) && k.id == id;
      var f := RowObserved(t, log, k);
    }
    forall id | id in Ids(fs) ensures id in Identities(t) {
      var f :| f in fs && f.id == id;
      var k := ObservationRecorded(t, log, f);
    }
  }

  lemma SameAllocation(t: Tables, log: seq<Batch>, id: Identity)
    requires Agrees(t, log) && id in Identities(t) && id in Ids(AllFiles(Active(log)))
    ensures GroupAllocated(t, id) == LargestAllocation(AllFiles(Active(log)), id)
  {
    var fs := AllFiles(Active(log));
    GroupsInhabited(t, id);
    AllocationsInhabited(fs, id);
    var m := MaxOf(Allocations(t, id));
    var k :| k in CurrentRows(t) && k.id == id && t.inodes[k].alloc == m;
    var f := RowObserved(t, log, k);
    assert f.alloc in AllocationsOf(fs, id);
    var n := MaxOf(AllocationsOf(fs, id));
    var g :| g in fs && g.id == id && g.alloc == n;
    var j := ObservationRecorded(t, log, g);
    assert t.inodes[j].alloc in Allocations(t, id);
  }

  // ----- Conflicts -----

  lemma ConflictSound(t: Tables, log: seq<Batch>, id: Identity)
    requires Agrees(t, log) && id in Identities(t) && GroupConflicts(t, id)
    ensures SomeDiffer(AllFiles(Active(log)))
  {
    var fs := AllFiles(Active(log));
    GroupsInhabited(t, id);
    if exists k :: k in CurrentRows(t) && k.id == id && t.inodes[k].conflicting {
      var k :| k in CurrentRows(t) && k.id == id && t.inodes[k].conflicting;
      assert RowAgrees(t, log, k.directory, id);
      var own := FilesOf(log, k.directory);
      var f, g :| f in Observations(own, id) && g in Observations(own, id) && Differ(f, g);
      ObservationsMembers(own, id, f);
      ObservationsMembers(own, id, g);
      FilesByDirectory(t, log, f);
      FilesByDirectory(t, log, g);
    } else if MinOf(Allocations(t, id)) != MaxOf(Allocations(t, id)) {
      var k :| k in CurrentRows(t) && k.id == id && t.inodes[k].alloc == MinOf(Allocations(t, id));
      var j :| j in CurrentRows(t) && j.id == id && t.inodes[j].alloc == MaxOf(Allocations(t, id));
      var f := RowObserved(t, log, k);
      var g := RowObserved(t, log, j);
      assert Differ(f, g);
    } else {
      var k :| k in CurrentRows(t) && k.id == id && t.inodes[k].logical == MinOf(Logicals(t, id));
      var j :| j in CurrentRows(t) && j.id == id && t.inodes[j].logical == MaxOf(Logicals(t, id));
      var f := FirstObserved(t, log, k);
      var g := FirstObserved(t, log, j);
      assert Differ(f, g);
    }
  }

  lemma FirstObserved(t: Tables, log: seq<Batch>, k: Key) returns (f: File)
    requires Agrees(t, log) && k in CurrentRows(t)
    ensures f in AllFiles(Active(log)) && f.id == k.id && f.logical == t.inodes[k].logical
  {
    assert RowAgrees(t, log, k.directory, k.id);
    f := Observations(FilesOf(log, k.directory), k.id)[0];
    ObservationsMembers(FilesOf(log, k.directory), k.id, f);
    FilesByDirectory(t, log, f);
  }

  /** In a row without conflict every observation equals what the row stores. */
  lemma UniformRow(row: InodeRow, obs: seq<File>, f: File)
    requires Summarises(row, obs) && !row.conflicting && f in obs
    requires forall g :: g in obs ==> g.id == f.id
    ensures f.logical == row.logical && f.alloc == row.alloc
  {
    var top :| top in obs && top.alloc == row.alloc;
    assert obs[0] in obs;
    assert !Differ(f, top) && !Differ(f, obs[0]);
  }

  lemma ConflictComplete(t: Tables, log: seq<Batch>, f: File, g: File)
    requires Agrees(t, log)
    requires f in AllFiles(Active(log)) && g in AllFiles(Active(log)) && Differ(f, g)
    ensures f.id in Identities(t) && GroupConflicts(t, f.id)
  {
    var id := f.id;
    var k := ObservationRecorded(t, log, f);
    var j := ObservationRecorded(t, log, g);
    GroupsInhabited(t, id);
    var ofK, ofJ := Observations(FilesOf(log, k.directory), id), Observations(FilesOf(log, j.directory), id);
    forall h | h in ofK ensures h.id == id { ObservationsMembers(FilesOf(log, k.directory), id, h); }
    forall h | h in ofJ ensures h.id == id { ObservationsMembers(FilesOf(log, j.directory), id, h); }
    if !t.inodes[k].conflicting && !t.inodes[j].conflicting {
      UniformRow(t.inodes[k], ofK, f);
      UniformRow(t.inodes[j], ofJ, g);
      assert t.inodes[k].logical in Logicals(t, id) && t.inodes[j].logical in Logicals(t, id);
      assert t.inodes[k].alloc in Allocations(t, id) && t.inodes[j].alloc in Allocations(t, id);
    }
  }

  lemma SameConflict(t: Tables, log: seq<Batch>)
    requires Agrees(t, log)
    ensures Measure(t).conflicting == NaiveMeasure(log).conflicting
  {
    if Measure(t).conflicting {
      var id :| id in Identities(t) && GroupConflicts(t, id);
      ConflictSound(t, log, id);
    }
    var fs := AllFiles(Active(log));
    if exists f, g :: f in fs && g in fs && Differ(f, g) {
      var f, g :| f in fs && g in fs && Differ(f, g);
      ConflictComplete(t, log, f, g);
    }
  }

  lemma SameAllocatedTotal(t: Tables, log: seq<Batch>)
    requires Agrees(t, log)
    ensures Measure(t).alloc == NaiveMeasure(log).alloc
  {
    var fs := AllFiles(Active(log));
    SameIdentities(t, log);
    forall id | id in Identities(t) ensures GroupAllocated(t, id) == LargestAllocation(fs, id) {
      SameAllocation(t, log, id);
    }
    assert (map id | id in Identities(t) :: GroupAllocated(t, id)) == LargestAllocations(fs);
  }

  /** The measurement equals the totals computed from the raw observations that count. */
  lemma MeasureIsNaive(t: Tables, log: seq<Batch>)
    requires Agrees(t, log)
    ensures Measure(t) == NaiveMeasure(log)
  {
    var m, n := Measure(t), NaiveMeasure(log);
    assert m.files == n.files && m.logical == n.logical by { DirTotals(t, log); }
    assert m.complete == n.complete by { DirCompletion(t, log); }
    assert m.uniqueInodes == n.uniqueInodes by { SameIdentities(t, log); }
    assert m.conflicting == n.conflicting by { SameConflict(t, log); }
    assert m.alloc == n.alloc by { SameAllocatedTotal(t, log); }
  }

  // ----- Path counts -----

  ghost function OwnRows(t: Tables, d: int): set<Key> {
    set k | k in CurrentRows(t) && k.directory == d
  }

  ghost function ObservationCounts(fs: seq<File>): map<Identity, int> {
    map id | id in Ids(fs) :: |Observations(fs, id)|
  }

  lemma AbsentIdentity(fs: seq<File>, id: Identity)
    requires id !in Ids(fs)
    ensures Observations(fs, id) == []
  {
    if Observations(fs, id) != [] {
      ObservationsMembers(fs, id, Observations(fs, id)[0]);
    }
  }

  lemma {:induction false} CountsAddUp(fs: seq<File>)
    ensures SumOver(ObservationCounts(fs)) == |fs|
  {
    if fs == [] {
      assert ObservationCounts(fs) == map[];
    } else {
      var p, f := fs[..|fs| - 1], fs[|fs| - 1];
      CountsAddUp(p);
      assert Ids(fs) == Ids(p) + {f.id} by { assert fs == p + [f]; }
      if f.id !in Ids(p) {
        AbsentIdentity(p, f.id);
      }
      SumOverGrow(ObservationCounts(p), ObservationCounts(fs), f.id, 1);
    }
  }

  /** Renaming the keys of a map one to one keeps its sum. */
  lemma {:induction false} SumOverRename(m: map<Key, int>, n: map<Identity, int>, d: int, g: int)
    requires forall k :: k in m ==> k == Key(d, g, k.id) && k.id in n && n[k.id] == m[k]
    requires forall id :: id in n ==> Key(d, g, id) in m
    ensures SumOver(m) == SumOver(n)
    decreases |n|
  {
    if m == map[] {
      assert n == map[];
    } else {
      var k :| k in m;
      SumOverPick(m, k);
      SumOverPick(n, k.id);
      assert (n - {k.id}).Keys == n.Keys - {k.id};
      SumOverRename(m - {k}, n - {k.id}, d, g);
    }
  }

  /** The `paths` of a directory's current rows add up to its `files`, so they cannot overflow either. */
  lemma PathsAddUp(t: Tables, log: seq<Batch>, d: int)
    requires Agrees(t, log) && d in t.dirs
    ensures SumOver(map k | k in OwnRows(t, d) :: t.inodes[k].paths) == t.dirs[d].files
    ensures forall k :: k in OwnRows(t, d) ==> t.inodes[k].paths <= t.dirs[d].files <= MAX_INT64
  {
    var fs := FilesOf(log, d);
    var g := t.dirs[d].generation;
    var m := map k | k in OwnRows(t, d) :: t.inodes[k].paths;
    assert DirAgreesAt(t, log, d);
    forall k | k in m
      ensures k == Key(d, g, k.id) && k.id in Ids(fs) && m[k] == |Observations(fs, k.id)| <= |fs|
    {
      assert RowAgrees(t, log, d, k.id);
      ObservationsMembers(fs, k.id, Observations(fs, k.id)[0]);
      ObservationsBounded(fs, k.id);
    }
    forall id | id in Ids(fs) ensures Key(d, g, id) in m {
      var f :| f in fs && f.id == id;
      ObservationsMembers(fs, id, f);
      assert RowAgrees(t, log, d, id);
    }
    SumOverRename(m, ObservationCounts(fs), d, g);
    CountsAddUp(fs);
  }

  lemma {:induction false} ObservationsBounded(fs: seq<File>, id: Identity)
    ensures |Observations(fs, id)| <= |fs|
  {
    if fs != [] {
      ObservationsBounded(fs[..|fs| - 1], id);
    }
  }
}
