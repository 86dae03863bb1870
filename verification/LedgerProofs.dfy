/** The tables agree with the log in every run, so the measurement equals the naive totals. */
module LedgerProofs {
  import opened Ledger
  import opened LedgerHistory

  // ----- Agreement of the tables with the log -----

  ghost predicate SomeDiffer(obs: seq<File>) {
    exists f, g :: f in obs && g in obs && Differ(f, g)
  }

  /** An inode row condenses the observations of one identity in one generation. */
  ghost predicate Summarises(row: InodeRow, obs: seq<File>) {
    && obs != []
    && row.paths == |obs|
    && row.logical == obs[0].logical
    && (exists f :: f in obs && f.alloc == row.alloc)
    && (forall f :: f in obs ==> f.alloc <= row.alloc)
    && (row.conflicting <==> SomeDiffer(obs))
  }

  ghost predicate InOrder(row: DirRow, bs: seq<Batch>) {
    forall i :: 0 <= i < |bs| ==>
      && bs[i].ordinal == i
      && bs[i].generation == row.generation
      && bs[i].complete == (i == |bs| - 1 && row.complete)
  }

  /** A directory row agrees with the directory's counted batches: their ordinals are exactly
      0 .. nextBatch - 1, one generation, nothing after completion, and the sums are exact. */
  ghost predicate DirAgrees(row: DirRow, bs: seq<Batch>) {
    && bs != []
    && row.nextBatch == |bs| <= MAX_INT64
    && InOrder(row, bs)
    && row.files == |AllFiles(bs)| <= MAX_INT64
    && row.logical == SumLogical(AllFiles(bs)) <= MAX_INT64
  }

  ghost function FilesOf(log: seq<Batch>, d: int): seq<File> {
    AllFiles(Only(Active(log), d))
  }

  ghost predicate RowAgrees(t: Tables, log: seq<Batch>, d: int, id: Identity)
    requires d in t.dirs
  {
    var k := Key(d, t.dirs[d].generation, id);
    var obs := Observations(FilesOf(log, d), id);
    && (k in t.inodes <==> obs != [])
    && (k in t.inodes ==> Summarises(t.inodes[k], obs))
  }

  ghost predicate DirAgreesAt(t: Tables, log: seq<Batch>, d: int) {
    var bs := Only(Active(log), d);
    if d in t.dirs then DirAgrees(t.dirs[d], bs) else bs == []
  }

  ghost predicate DirsAgree(t: Tables, log: seq<Batch>) {
    forall d :: DirAgreesAt(t, log, d)
  }

  ghost predicate RowsAgree(t: Tables, log: seq<Batch>) {
    forall d, id :: d in t.dirs ==> RowAgrees(t, log, d, id)
  }

  /** Every inode row, current or obsolete, belongs to a known directory and was observed. */
  ghost predicate RowsOwned(t: Tables) {
    forall k :: k in t.inodes ==> k.directory in t.dirs && t.inodes[k].paths >= 1
  }

  ghost predicate Agrees(t: Tables, log: seq<Batch>) {
    && DirsAgree(t, log) && RowsAgree(t, log) && RowsOwned(t)
    && (forall b :: b in Active(log) ==> forall f :: f in b.files ==> ValidFile(f))
  }

  /** The freshness that callers owe: no inode row survives for a generation that is being started. */
  ghost predicate FreshStart(t: Tables, b: Batch) {
    Starts(t, b) ==> forall k :: k in t.inodes ==> !(k.directory == b.directory && k.generation == b.generation)
  }

  // ----- One upsert, one batch -----

  lemma UpsertSummarises(rows: map<Key, InodeRow>, k: Key, obs: seq<File>, f: File)
    requires f.id == k.id && forall g :: g in obs ==> g.id == k.id
    requires if k in rows then Summarises(rows[k], obs) else obs == []
    ensures Summarises(Upserted(rows, k, f), obs + [f])
  {
    var row := Upserted(rows, k, f);
    var all := obs + [f];
    assert f in all;
    if obs != [] {
      var was := rows[k];
      var top :| top in obs && top.alloc == was.alloc;
      assert top in all && obs[0] in all && obs[0] in obs;
      if was.conflicting {
        var x, y :| x in obs && y in obs && Differ(x, y);
        assert x in all && y in all;
      } else {
        assert forall g :: g in obs ==> !Differ(g, obs[0]) && !Differ(g, top);
        if f.logical != was.logical {
          assert Differ(f, obs[0]);
        } else if f.alloc != was.alloc {
          assert Differ(f, top);
        }
      }
    }
  }

  /** Folding a batch's files touches only rows of that directory and generation, and leaves
      each of them the summary of the earlier observations followed by the new ones. */
  lemma {:induction false} UpsertAllSummarises(rows: map<Key, InodeRow>, d: int, g: int, fs: seq<File>,
                                               id: Identity, obs: seq<File>)
    requires forall f :: f in obs ==> f.id == id
    requires var k := Key(d, g, id); if k in rows then Summarises(rows[k], obs) else obs == []
    ensures var k := Key(d, g, id);
            var after := UpsertAll(rows, d, g, fs);
            var all := obs + Observations(fs, id);
            if k in after then Summarises(after[k], all) else all == []
  {
    if fs == [] {
      assert obs + Observations(fs, id) == obs;
    } else {
      var p, f := fs[..|fs| - 1], fs[|fs| - 1];
      UpsertAllSummarises(rows, d, g, p, id, obs);
      var before := UpsertAll(rows, d, g, p);
      var seen := obs + Observations(p, id);
      forall h | h in seen ensures h.id == id {
        ObservationsMembers(p, id, h);
      }
      if f.id == id {
        UpsertSummarises(before, Key(d, g, id), seen, f);
        assert obs + Observations(fs, id) == seen + [f];
      } else {
        assert obs + Observations(fs, id) == seen;
      }
    }
  }

  lemma {:induction false} UpsertAllElsewhere(rows: map<Key, InodeRow>, d: int, g: int, fs: seq<File>, k: Key)
    ensures var after := UpsertAll(rows, d, g, fs);
            && (!(k.directory == d && k.generation == g) ==>
                  (k in after <==> k in rows) && (k in rows ==> after[k] == rows[k]))
            && (k in rows ==> k in after && after[k].paths >= rows[k].paths)
            && (k in after && (k in rows ==> rows[k].paths >= 1) ==> after[k].paths >= 1)
  {
    if fs != [] {
      UpsertAllElsewhere(rows, d, g, fs[..|fs| - 1], k);
    }
  }

  /** How many times a row is touched. */
  lemma {:induction false} UpsertAllPaths(rows: map<Key, InodeRow>, d: int, g: int, fs: seq<File>, id: Identity)
    requires Key(d, g, id) in rows
    ensures var k := Key(d, g, id);
            k in UpsertAll(rows, d, g, fs) && UpsertAll(rows, d, g, fs)[k].paths ==
                rows[k].paths + |Observations(fs, id)|
  {
    if fs != [] {
      UpsertAllPaths(rows, d, g, fs[..|fs| - 1], id);
    }
  }

  // ----- A commit preserves agreement exactly when it starts fresh -----

  lemma StartsAtZero(t: Tables, log: seq<Batch>, b: Batch)
    requires DirsAgree(t, log) && Accepts(t, b)
    ensures Starts(t, b) <==> b.ordinal == 0
  {
    assert DirAgreesAt(t, log, b.directory);
  }

  ghost function RowAfter(base: DirRow, b: Batch): DirRow {
    DirRow(b.generation, b.ordinal + 1, base.files + |b.files|, base.logical + SumLogical(b.files), b.complete)
  }

  /** Appending a batch to the row and to the counted batches it agrees with. */
  lemma AppendBatch(base: DirRow, bs: seq<Batch>, b: Batch)
    requires if bs == [] then base == DirRow(b.generation, 0, 0, 0, false) else DirAgrees(base, bs)
    requires !base.complete && base.nextBatch == b.ordinal != MAX_INT64 && base.generation == b.generation
    requires base.files + |b.files| <= MAX_INT64
    requires b.files == [] || base.logical + SumLogical(b.files) <= MAX_INT64
    ensures DirAgrees(RowAfter(base, b), bs + [b])
  {
    var row := RowAfter(base, b);
    assert InOrder(row, bs + [b]) by {
      forall i | 0 <= i < |bs| ensures bs[i].ordinal == i && bs[i].generation == b.generation && !bs[i].complete {
        assert InOrder(base, bs);
      }
    }
    assert row.files == |AllFiles(bs + [b])| && row.logical == SumLogical(AllFiles(bs + [b])) by {
      AllFilesAppend(bs, b);
      SumLogicalConcat(AllFiles(bs), b.files);
    }
  }

  /** The counted batches that an accepted batch is appended to. */
  ghost function Continued(log: seq<Batch>, b: Batch): seq<Batch> {
    if b.ordinal == 0 then [] else Only(Active(log), b.directory)
  }

  lemma BaseAgrees(t: Tables, log: seq<Batch>, b: Batch)
    requires DirsAgree(t, log) && Accepts(t, b)
    ensures var bs, base := Continued(log, b), BaseRow(t, b);
            && (if bs == [] then base == DirRow(b.generation, 0, 0, 0, false) else DirAgrees(base, bs))
            && base.generation == b.generation
  {
    StartsAtZero(t, log, b);
    assert DirAgreesAt(t, log, b.directory);
  }

  lemma AppliedRow(t: Tables, log: seq<Batch>, b: Batch)
    requires DirsAgree(t, log) && Accepts(t, b)
    ensures DirAgrees(Apply(t, b).dirs[b.directory], Continued(log, b) + [b])
  {
    BaseAgrees(t, log, b);
    AppendBatch(BaseRow(t, b), Continued(log, b), b);
  }

  lemma CommitOwnDir(t: Tables, log: seq<Batch>, b: Batch)
    requires DirsAgree(t, log) && Accepts(t, b)
    ensures DirAgreesAt(Apply(t, b), log + [b], b.directory)
  {
    AppliedRow(t, log, b);
    ActiveAppend(log, b, b.directory);
    assert Only(Active(log + [b]), b.directory) == Continued(log, b) + [b];
  }

  lemma CommitDirs(t: Tables, log: seq<Batch>, b: Batch)
    requires DirsAgree(t, log) && Accepts(t, b)
    ensures DirsAgree(Apply(t, b), log + [b])
  {
    forall e ensures DirAgreesAt(Apply(t, b), log + [b], e) {
      if e == b.directory {
        CommitOwnDir(t, log, b);
      } else {
        assert DirAgreesAt(t, log, e);
        ActiveAppend(log, b, e);
      }
    }
  }

  lemma FilesOfAppend(log: seq<Batch>, b: Batch, e: int)
    ensures FilesOf(log + [b], e) ==
            if b.directory != e then FilesOf(log, e)
            else if b.ordinal == 0 then b.files
            else FilesOf(log, e) + b.files
  {
    ActiveAppend(log, b, e);
    AllFilesAppend([], b);
    AllFilesAppend(Only(Active(log), e), b);
    assert [] + [b] == [b];
  }

  lemma CommitRow(t: Tables, log: seq<Batch>, b: Batch, e: int, id: Identity)
    requires Agrees(t, log) && Accepts(t, b) && FreshStart(t, b)
    requires e in Apply(t, b).dirs
    ensures RowAgrees(Apply(t, b), log + [b], e, id)
  {
    StartsAtZero(t, log, b);
    FilesOfAppend(log, b, e);
    if e != b.directory {
      assert RowAgrees(t, log, e, id);
      UpsertAllElsewhere(t.inodes, b.directory, b.generation, b.files, Key(e, t.dirs[e].generation, id));
    } else {
      var fs := if b.ordinal == 0 then [] else FilesOf(log, e);
      var obs := Observations(fs, id);
      forall h | h in obs ensures h.id == id {
        ObservationsMembers(fs, id, h);
      }
      assert b.ordinal != 0 ==> RowAgrees(t, log, e, id);
      UpsertAllSummarises(t.inodes, e, b.generation, b.files, id, obs);
      ObservationsConcat(fs, b.files, id);
      assert FilesOf(log + [b], e) == fs + b.files;
    }
  }

  lemma CommitFresh(t: Tables, log: seq<Batch>, b: Batch)
    requires Agrees(t, log) && Accepts(t, b) && FreshStart(t, b)
    ensures Agrees(Apply(t, b), log + [b])
  {
    CommitDirs(t, log, b);
    forall e, id | e in Apply(t, b).dirs ensures RowAgrees(Apply(t, b), log + [b], e, id) {
      CommitRow(t, log, b, e, id);
    }
    forall k | k in Apply(t, b).inodes ensures k.directory in Apply(t, b).dirs && Apply(t, b).inodes[k].paths >= 1 {
      UpsertAllElsewhere(t.inodes, b.directory, b.generation, b.files, k);
    }
    assert (log + [b])[..|log|] == log;
    forall c | c in Active(log + [b]) ensures forall f :: f in c.files ==> ValidFile(f) {
      OnlyMembers(Active(log + [b]), c.directory, c);
      OnlyMembers(Active(log), c.directory, c);
      ActiveAppend(log, b, c.directory);
    }
  }

  /** Freshness is exactly what a commit needs: starting over surviving rows always breaks agreement. */
  lemma CommitAgreesIffFresh(t: Tables, log: seq<Batch>, b: Batch)
    requires Agrees(t, log) && Accepts(t, b)
    ensures Agrees(Apply(t, b), log + [b]) <==> FreshStart(t, b)
  {
    if FreshStart(t, b) {
      CommitFresh(t, log, b);
    } else {
      StartsAtZero(t, log, b);
      var k :| k in t.inodes && k.directory == b.directory && k.generation == b.generation;
      FilesOfAppend(log, b, b.directory);
      UpsertAllPaths(t.inodes, b.directory, b.generation, b.files, k.id);
      assert !RowAgrees(Apply(t, b), log + [b], b.directory, k.id);
    }
  }

  lemma CollectAgrees(t: Tables, log: seq<Batch>, d: int, g: int, gone: set<Key>)
    requires Agrees(t, log) && LegalCollection(t, d, g, gone)
    ensures Agrees(Removed(t, gone), log)
  {
    forall e, id | e in t.dirs ensures RowAgrees(Removed(t, gone), log, e, id) {
      assert RowAgrees(t, log, e, id);
    }
    forall e ensures DirAgreesAt(Removed(t, gone), log, e) {
      assert DirAgreesAt(t, log, e);
    }
  }
}
