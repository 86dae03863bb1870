/** Whole runs of the store: any interleaving of transactions that commit or roll back and of
    collections, and what holds after each of them. */
module LedgerRuns {
  import opened Basics
  import opened Ledger
  import opened LedgerHistory
  import opened LedgerProofs
  import opened LedgerMeasure

  /** `fenced` is false when the caller's own lease check fails after the aggregate statements. */
  datatype Event =
    | CommitBatch(batch: Batch, fenced: bool)
    | CollectRows(directory: int, generation: int, gone: set<Key>)

  ghost predicate Possible(t: Tables, e: Event) {
    e.CollectRows? ==> LegalCollection(t, e.directory, e.generation, e.gone)
  }

  ghost predicate Lands(t: Tables, e: Event) {
    e.CommitBatch? && e.fenced && Accepts(t, e.batch)
  }

  ghost function Next(t: Tables, e: Event): Tables {
    if Lands(t, e) then Apply(t, e.batch)
    else if e.CollectRows? then Removed(t, e.gone)
    else t
  }

  ghost function RunFrom(t: Tables, es: seq<Event>): Tables {
    if es == [] then t else Next(RunFrom(t, es[..|es| - 1]), es[|es| - 1])
  }

  ghost function Run(es: seq<Event>): Tables {
    RunFrom(EMPTY, es)
  }

  /** The batches that were committed, in order. */
  ghost function Log(es: seq<Event>): seq<Batch> {
    if es == [] then [] else
      var p, e := es[..|es| - 1], es[|es| - 1];
      Log(p) + if Lands(Run(p), e) then [e.batch] else []
  }

  /** Each collection deletes what the store's statement may delete at that point. */
  ghost predicate PossibleRun(es: seq<Event>) {
    es == [] || (PossibleRun(es[..|es| - 1]) && Possible(Run(es[..|es| - 1]), es[|es| - 1]))
  }

  /** Every generation that is started has no surviving inode row at that moment. */
  ghost predicate FreshRun(es: seq<Event>) {
    es == [] ||
    var p, e := es[..|es| - 1], es[|es| - 1];
    FreshRun(p) && (Lands(Run(p), e) ==> FreshStart(Run(p), e.batch))
  }

  /** The tables agree with the log after every prefix of the run. */
  ghost predicate AgreesThroughout(es: seq<Event>) {
    Agrees(Run(es), Log(es)) && (es == [] || AgreesThroughout(es[..|es| - 1]))
  }

  lemma EmptyAgrees()
    ensures Agrees(EMPTY, [])
  {
    assert forall d :: DirAgreesAt(EMPTY, [], d);
  }

  lemma StepAgrees(t: Tables, log: seq<Batch>, e: Event)
    requires Agrees(t, log) && Possible(t, e)
    ensures Agrees(Next(t, e), log + if Lands(t, e) then [e.batch] else []) <==>
            (Lands(t, e) ==> FreshStart(t, e.batch))
  {
    assert log + [] == log;
    if Lands(t, e) {
      CommitAgreesIffFresh(t, log, e.batch);
    } else if e.CollectRows? {
      CollectAgrees(t, log, e.directory, e.generation, e.gone);
    }
  }

  /** Freshness is exact: the tables agree with the log at every point of a run iff the run is fresh. */
  lemma {:induction false} AgreesThroughoutIffFresh(es: seq<Event>)
    requires PossibleRun(es)
    ensures AgreesThroughout(es) <==> FreshRun(es)
  {
    if es == [] {
      EmptyAgrees();
    } else {
      var p := es[..|es| - 1];
      AgreesThroughoutIffFresh(p);
      if AgreesThroughout(p) {
        StepAgrees(Run(p), Log(p), es[|es| - 1]);
      }
    }
  }

  /** In every fresh run the fast index measures exactly what the raw observations add up to. */
  lemma RunMeasuresNaive(es: seq<Event>)
    requires PossibleRun(es) && FreshRun(es)
    ensures Agrees(Run(es), Log(es))
    ensures Measure(Run(es)) == NaiveMeasure(Log(es))
  {
    AgreesThroughoutIffFresh(es);
    MeasureIsNaive(Run(es), Log(es));
  }

  // ----- The store object goes through runs -----

  datatype Call = Transact(batch: Batch, fenced: bool) | Clean(directory: int, generation: int)

  /** The event that a call amounts to; which rows a collection deletes is up to the store. */
  ghost predicate Amounts(c: Call, e: Event) {
    match c
    case Transact(b, fenced) => e == CommitBatch(b, fenced)
    case Clean(d, g) => e.CollectRows? && e.directory == d && e.generation == g
  }

  method Perform(s: Store, c: Call) returns (ghost e: Event)
    modifies s
    ensures Amounts(c, e) && old(Possible(s.Contents(), e)) && s.Contents() == old(Next(s.Contents(), e))
  {
    match c {
      case Transact(b, fenced) =>
        var r := s.Transaction(b, fenced);
        e := CommitBatch(b, fenced);
      case Clean(d, g) =>
        ghost var gone;
        var deleted;
        deleted, gone := s.Collect(d, g);
        e := CollectRows(d, g, gone);
    }
  }

  /** Whatever is called on an empty store, one call after another, is a possible run that leaves the
      tables where the run leaves them. */
  method Play(s: Store, calls: seq<Call>) returns (ghost es: seq<Event>)
    requires s.Contents() == EMPTY
    modifies s
    ensures |es| == |calls| && PossibleRun(es) && s.Contents() == Run(es)
    ensures forall i :: 0 <= i < |calls| ==> Amounts(calls[i], es[i])
  {
    es := [];
    for i := 0 to |calls|
      invariant |es| == i && PossibleRun(es) && s.Contents() == Run(es)
      invariant forall j :: 0 <= j < i ==> Amounts(calls[j], es[j])
    {
      ghost var e := Perform(s, calls[i]);
      RunStep(es, e);
      assert (es + [e])[..|es|] == es;
      es := es + [e];
    }
  }

  // ----- What is accepted, by the log alone -----

  /** Every file has an identity and sizes. */
  ghost predicate Measured(fs: seq<File>) {
    forall f :: f in fs ==> f.id.device != "" && f.id.inode != "" && f.logical >= 0 && f.alloc >= 0
  }

  /** Whether a batch fits what its directory has committed before: it continues the generation with the
      next ordinal, nothing is complete yet and no counter overflows; or it starts another generation
      with ordinal zero. */
  ghost predicate Continues(own: seq<Batch>, b: Batch) {
    if own != [] && own[0].generation == b.generation then
      && b.ordinal == |own| < 9223372036854775807 && (forall c :: c in own ==> !c.complete)
      && |AllFiles(own)| + |b.files| <= 9223372036854775807
      && SumLogical(AllFiles(own)) + SumLogical(b.files) <= 9223372036854775807
    else b.ordinal == 0 && SumLogical(b.files) <= 9223372036854775807
  }

  lemma RowContinues(t: Tables, log: seq<Batch>, b: Batch)
    requires Agrees(t, log) && b.directory in t.dirs && t.dirs[b.directory].generation == b.generation
    requires |b.files| <= BATCH_LIMIT && Measured(b.files)
    ensures Accepts(t, b) <==> b.directory > 0 && b.generation > 0 && b.ordinal >= 0
                               && Continues(Only(Active(log), b.directory), b)
  {
    var own, row := Only(Active(log), b.directory), t.dirs[b.directory];
    assert DirAgreesAt(t, log, b.directory);
    assert own[0].generation == row.generation && own[|own| - 1].complete == row.complete by {
      assert InOrder(row, own);
    }
    assert (forall c :: c in own ==> !c.complete) <==> !row.complete by {
      assert InOrder(row, own);
      assert own[|own| - 1] in own;
    }
    SumLogicalNonNegative(b.files);
  }

  /** In every fresh run a batch is accepted exactly if its header is in range, its files are measured,
      and it continues or replaces what the log says its directory has committed. */
  lemma AcceptedByHistory(es: seq<Event>, b: Batch)
    requires PossibleRun(es) && FreshRun(es)
    ensures Accepts(Run(es), b) <==>
            && b.directory > 0 && b.generation > 0 && b.ordinal >= 0 && |b.files| <= 128 && Measured(b.files)
            && Continues(Only(Active(Log(es)), b.directory), b)
  {
    var t, log := Run(es), Log(es);
    RunMeasuresNaive(es);
    var own := Only(Active(log), b.directory);
    assert DirAgreesAt(t, log, b.directory);
    assert own != [] ==> own[0].generation == t.dirs[b.directory].generation by {
      if own != [] {
        assert InOrder(t.dirs[b.directory], own);
      }
    }
    if own != [] && own[0].generation == b.generation && |b.files| <= BATCH_LIMIT && Measured(b.files) {
      RowContinues(t, log, b);
    }
  }

  // ----- Replays -----

  /** A batch that still counts is never accepted again, nor is any batch of its generation once
      that generation is complete or past the batch's ordinal; the transaction changes nothing. */
  lemma ReplayRefused(t: Tables, log: seq<Batch>, b: Batch, fenced: bool)
    requires Agrees(t, log) && b.directory in t.dirs && t.dirs[b.directory].generation == b.generation
    requires b in Active(log) || t.dirs[b.directory].complete || b.ordinal < t.dirs[b.directory].nextBatch
    ensures !Accepts(t, b) && Next(t, CommitBatch(b, fenced)) == t
  {
    assert DirAgreesAt(t, log, b.directory);
    if b in Active(log) {
      OnlyMembers(Active(log), b.directory, b);
      var own := Only(Active(log), b.directory);
      var i :| 0 <= i < |own| && own[i] == b;
      assert InOrder(t.dirs[b.directory], own);
    }
  }

  // ----- Order and batching are immaterial -----

  ghost predicate SameContent(t: Tables, log: seq<Batch>, u: Tables, log': seq<Batch>) {
    && t.dirs.Keys == u.dirs.Keys
    && (forall d :: d in t.dirs ==> t.dirs[d].complete == u.dirs[d].complete)
    && (forall d :: d in t.dirs ==> multiset(FilesOf(log, d)) == multiset(FilesOf(log', d)))
  }

  lemma SameContentFile(t: Tables, log: seq<Batch>, u: Tables, log': seq<Batch>, f: File)
    requires Agrees(t, log) && Agrees(u, log') && SameContent(t, log, u, log')
    requires f in AllFiles(Active(log))
    ensures f in AllFiles(Active(log'))
  {
    FilesByDirectory(t, log, f);
    var d :| d in t.dirs && f in FilesOf(log, d);
    assert f in multiset(FilesOf(log, d));
    assert f in multiset(FilesOf(log', d));
    FilesByDirectory(u, log', f);
  }

  lemma SameDirTotals(t: Tables, log: seq<Batch>, u: Tables, log': seq<Batch>)
    requires Agrees(t, log) && Agrees(u, log') && SameContent(t, log, u, log')
    ensures Measure(t).files == Measure(u).files && Measure(t).logical == Measure(u).logical
  {
    forall d | d in t.dirs ensures t.dirs[d].files == u.dirs[d].files && t.dirs[d].logical == u.dirs[d].logical {
      assert DirAgreesAt(t, log, d) && DirAgreesAt(u, log', d);
      SumLogicalPermutation(FilesOf(log, d), FilesOf(log', d));
      assert |FilesOf(log, d)| == |multiset(FilesOf(log, d))| == |multiset(FilesOf(log', d))|;
    }
    assert DirFiles(t) == DirFiles(u);
    assert DirLogicals(t) == DirLogicals(u);
  }

  lemma SameComplete(t: Tables, log: seq<Batch>, u: Tables, log': seq<Batch>)
    requires SameContent(t, log, u, log')
    ensures Measure(t).complete == Measure(u).complete
  {
    assert t.dirs == map[] <==> t.dirs.Keys == {};
    assert u.dirs == map[] <==> u.dirs.Keys == {};
    assert forall d :: d in t.dirs <==> d in u.dirs.Keys;
  }

  /** Two runs that left each directory with the same multiset of observations and the same
      completion flag measure the same, however the observations were ordered and batched. */
  lemma OrderAndBatchingImmaterial(es: seq<Event>, es': seq<Event>)
    requires PossibleRun(es) && FreshRun(es) && PossibleRun(es') && FreshRun(es')
    requires SameContent(Run(es), Log(es), Run(es'), Log(es'))
    ensures Measure(Run(es)) == Measure(Run(es'))
  {
    var t, log, u, log' := Run(es), Log(es), Run(es'), Log(es');
    RunMeasuresNaive(es);
    RunMeasuresNaive(es');
    SameDirTotals(t, log, u, log');
    SameComplete(t, log, u, log');
    var fs, gs := AllFiles(Active(log)), AllFiles(Active(log'));
    forall f ensures f in fs <==> f in gs {
      if f in fs { SameContentFile(t, log, u, log', f); }
      if f in gs { SameContentFile(u, log', t, log, f); }
    }
    NaiveTotalsMembers(fs, gs);
  }

  // ----- Collection -----

  /** Collecting never changes the measurement, in any state whatsoever. */
  lemma CollectKeepsMeasure(t: Tables, d: int, g: int, gone: set<Key>)
    requires LegalCollection(t, d, g, gone)
    ensures Measure(Removed(t, gone)) == Measure(t)
    ensures |gone| <= BATCH_LIMIT
    ensures forall k :: k in gone ==> !Current(t, k)
  {
    var u := Removed(t, gone);
    assert CurrentRows(u) == CurrentRows(t);
    assert Identities(u) == Identities(t);
    forall id | id in Identities(t)
      ensures GroupAllocated(u, id) == GroupAllocated(t, id) && GroupConflicts(u, id) == GroupConflicts(t, id)
    {
      assert Allocations(u, id) == Allocations(t, id);
      assert Logicals(u, id) == Logicals(t, id);
    }
    assert (map id | id in Identities(t) :: GroupAllocated(t, id)) ==
             (map id | id in Identities(u) :: GroupAllocated(u, id));
  }

  ghost function Collections(es: seq<Event>, d: int, g: int): nat {
    if es == [] then 0 else
      var e := es[|es| - 1];
      Collections(es[..|es| - 1], d, g) + if e.CollectRows? && e.directory == d && e.generation == g then 1 else 0
  }

  ghost predicate Obsolete(t: Tables, d: int, g: int) {
    d in t.dirs && t.dirs[d].generation != g
  }

  lemma StepDrains(t: Tables, e: Event, d: int, g: int)
    requires Possible(t, e) && Obsolete(t, d, g) && Obsolete(Next(t, e), d, g)
    ensures |Eligible(Next(t, e), d, g)| ==
            if e.CollectRows? && e.directory == d && e.generation == g then Max(0, |Eligible(t, d, g)| - BATCH_LIMIT)
            else |Eligible(t, d, g)|
  {
    var before, after := Eligible(t, d, g), Eligible(Next(t, e), d, g);
    if Lands(t, e) {
      var b := e.batch;
      forall k: Key | k.directory == d && k.generation == g ensures k in Next(t, e).inodes <==> k in t.inodes {
        UpsertAllElsewhere(t.inodes, b.directory, b.generation, b.files, k);
      }
      assert after == before;
    } else if e.CollectRows? {
      if e.directory == d && e.generation == g {
        assert after == before - e.gone;
        assert |before| == |e.gone| + |before - e.gone|;
      } else {
        assert after == before;
      }
    }
  }

  /** The generation is obsolete now and after every event of a possible run from `t`. */
  ghost predicate StaysObsolete(t: Tables, es: seq<Event>, d: int, g: int) {
    && Obsolete(RunFrom(t, es), d, g)
    && (es == [] || (StaysObsolete(t, es[..|es| - 1], d, g) && Possible(RunFrom(t, es[..|es| - 1]), es[|es| - 1])))
  }

  /** While a generation stays obsolete, whatever else happens, each collection of it removes one
      full batch of its rows until none is left. */
  lemma {:induction false} CollectionsDrain(t: Tables, es: seq<Event>, d: int, g: int)
    requires StaysObsolete(t, es, d, g)
    ensures |Eligible(RunFrom(t, es), d, g)| == Max(0, |Eligible(t, d, g)| - 128 * Collections(es, d, g))
  {
    if es != [] {
      var p := es[..|es| - 1];
      CollectionsDrain(t, p, d, g);
      StepDrains(RunFrom(t, p), es[|es| - 1], d, g);
    }
  }

  // ----- Why freshness is needed -----

  const SEEN := File(Identity("dev", "1"), 10, 4096)
  const OPENED := Batch(1, 1, 0, true, [SEEN])
  const REPLACED := Batch(1, 2, 0, true, [])
  const REOPENED := Batch(1, 1, 0, true, [])
  const STALE_RUN := [CommitBatch(OPENED, true), CommitBatch(REPLACED, true), CommitBatch(REOPENED, true)]
  const SURVIVOR := map[Key(1, 1, SEEN.id) := InodeRow(1, 10, 4096, false)]

  /** Reopening a generation whose rows survived: the store accepts the batch, yet it measures an
      inode that no current observation has. */
  lemma StaleGenerationMiscounts()
    ensures PossibleRun(STALE_RUN) && !FreshRun(STALE_RUN)
    ensures Measure(Run(STALE_RUN)).uniqueInodes == 1 && NaiveMeasure(Log(STALE_RUN)).uniqueInodes == 0
  {
    StaleTables();
    StaleActive();
    CommitsArePossible(STALE_RUN);
    SurvivorCounted(Run(STALE_RUN));
    NothingObserved();
    if FreshRun(STALE_RUN) {
      RunMeasuresNaive(STALE_RUN);
    }
  }

  lemma SurvivorCounted(t: Tables)
    requires t == Tables(map[1 := DirRow(1, 1, 0, 0, true)], SURVIVOR)
    ensures Measure(t).uniqueInodes == 1
  {
    assert CurrentRows(t) == {Key(1, 1, SEEN.id)};
    assert Identities(t) == {SEEN.id};
  }

  lemma NothingObserved()
    ensures |Ids(AllFiles([REOPENED]))| == 0
  {
    assert [REOPENED][..0] == [] && AllFiles([REOPENED]) == [];
    assert Ids([]) == {};
  }

  lemma OpenedLands()
    ensures Accepts(EMPTY, OPENED)
    ensures Apply(EMPTY, OPENED) == Tables(map[1 := DirRow(1, 1, 1, 10, true)], SURVIVOR)
  {
    assert [SEEN][..0] == [] && SumLogical([SEEN]) == 10;
    assert UpsertAll(EMPTY.inodes, 1, 1, [SEEN]) == SURVIVOR;
    assert EMPTY.dirs[1 := DirRow(1, 1, 1, 10, true)] == map[1 := DirRow(1, 1, 1, 10, true)];
  }

  lemma ReplacedLands()
    ensures var t := Tables(map[1 := DirRow(1, 1, 1, 10, true)], SURVIVOR);
            Accepts(t, REPLACED) && Apply(t, REPLACED) == Tables(map[1 := DirRow(2, 1, 0, 0, true)], SURVIVOR)
  {
  }

  lemma ReopenedLands()
    ensures var t := Tables(map[1 := DirRow(2, 1, 0, 0, true)], SURVIVOR);
            Accepts(t, REOPENED) && Apply(t, REOPENED) == Tables(map[1 := DirRow(1, 1, 0, 0, true)], SURVIVOR)
  {
  }

  lemma StaleTables()
    ensures Run(STALE_RUN) == Tables(map[1 := DirRow(1, 1, 0, 0, true)], SURVIVOR)
    ensures Log(STALE_RUN) == [OPENED, REPLACED, REOPENED]
  {
    var e0, e1, e2 := STALE_RUN[0], STALE_RUN[1], STALE_RUN[2];
    OpenedLands();
    ReplacedLands();
    ReopenedLands();
    RunStep([], e0);
    RunStep([] + [e0], e1);
    RunStep([] + [e0] + [e1], e2);
    assert STALE_RUN == [] + [e0] + [e1] + [e2];
  }

  lemma {:induction false} CommitsArePossible(es: seq<Event>)
    requires forall i :: 0 <= i < |es| ==> es[i].CommitBatch?
    ensures PossibleRun(es)
  {
    if es != [] {
      CommitsArePossible(es[..|es| - 1]);
    }
  }

  lemma StaleActive()
    ensures Active([OPENED, REPLACED, REOPENED]) == [REOPENED]
  {
    assert [OPENED, REPLACED] + [REOPENED] == [OPENED, REPLACED, REOPENED];
    OnlyTheLatest([OPENED, REPLACED], REOPENED);
  }

  /** A batch zero of the only directory is all that counts. */
  lemma OnlyTheLatest(log: seq<Batch>, b: Batch)
    requires b.ordinal == 0 && forall c :: c in log ==> c.directory == b.directory
    ensures Active(log + [b]) == [b]
  {
    assert (log + [b])[..|log|] == log;
    var left := Without(Active(log), b.directory);
    if left != [] {
      assert left[0] in left;
      WithoutMembers(Active(log), b.directory, left[0]);
      ActiveFromLog(log, left[0]);
    }
  }

  lemma RunStep(es: seq<Event>, e: Event)
    ensures Run(es + [e]) == Next(Run(es), e)
    ensures Log(es + [e]) == Log(es) + if Lands(Run(es), e) then [e.batch] else []
  {
    assert (es + [e])[..|es|] == es;
  }

  lemma {:induction false} ActiveFromLog(log: seq<Batch>, b: Batch)
    requires b in Active(log)
    ensures b in log
  {
    var p, c := log[..|log| - 1], log[|log| - 1];
    if b != c {
      WithoutMembers(Active(p), c.directory, b);
      ActiveFromLog(p, b);
    }
  }

  lemma {:induction false} WithoutMembers(bs: seq<Batch>, d: int, b: Batch)
    ensures b in Without(bs, d) <==> b in bs && b.directory != d
  {
    if bs != [] {
      WithoutMembers(bs[..|bs| - 1], d, b);
      assert bs == bs[..|bs| - 1] + [bs[|bs| - 1]];
    }
  }
}
