/** What the store is measured against: the log of committed batches, the batches in it that
    still count, and totals computed naively from their raw observations. */
module LedgerHistory {
  import opened Aggregates
  import opened Ledger

  // ----- The batches that still count -----

  function Without(bs: seq<Batch>, d: int): seq<Batch> {
    if bs == [] then [] else
      Without(bs[..|bs| - 1], d) + if bs[|bs| - 1].directory == d then [] else [bs[|bs| - 1]]
  }

  function Only(bs: seq<Batch>, d: int): seq<Batch> {
    if bs == [] then [] else
      Only(bs[..|bs| - 1], d) + if bs[|bs| - 1].directory == d then [bs[|bs| - 1]] else []
  }

  /** A batch with ordinal zero replaces its directory's whole contribution; any other one adds to it. */
  function Active(log: seq<Batch>): seq<Batch> {
    if log == [] then [] else
      var b := log[|log| - 1];
      var before := Active(log[..|log| - 1]);
      (if b.ordinal == 0 then Without(before, b.directory) else before) + [b]
  }

  function AllFiles(bs: seq<Batch>): seq<File> {
    if bs == [] then [] else AllFiles(bs[..|bs| - 1]) + bs[|bs| - 1].files
  }

  function Observations(fs: seq<File>, id: Identity): seq<File> {
    if fs == [] then [] else
      Observations(fs[..|fs| - 1], id) + if fs[|fs| - 1].id == id then [fs[|fs| - 1]] else []
  }

  // ----- Naive totals over raw observations -----

  ghost function LogicalAt(fs: seq<File>): map<int, int> {
    map i | 0 <= i < |fs| :: fs[i].logical
  }

  /** The running sum adds up the logical sizes, each position once. */
  lemma {:induction false} SumLogicalIs(fs: seq<File>)
    ensures SumLogical(fs) == SumOver(LogicalAt(fs))
  {
    if fs == [] {
      assert LogicalAt(fs) == map[];
    } else {
      var n := |fs| - 1;
      SumLogicalIs(fs[..n]);
      assert LogicalAt(fs) - {n} == LogicalAt(fs[..n]);
      SumOverPick(LogicalAt(fs), n);
    }
  }

  ghost function Ids(fs: seq<File>): set<Identity> {
    set f | f in fs :: f.id
  }

  ghost function AllocationsOf(fs: seq<File>, id: Identity): set<int> {
    set f | f in fs && f.id == id :: f.alloc
  }

  ghost predicate Differ(f: File, g: File) {
    f.id == g.id && (f.logical != g.logical || f.alloc != g.alloc)
  }

  lemma AllocationsInhabited(fs: seq<File>, id: Identity)
    requires id in Ids(fs)
    ensures AllocationsOf(fs, id) != {}
  {
    var f :| f in fs && f.id == id;
    assert f.alloc in AllocationsOf(fs, id);
  }

  ghost function LargestAllocation(fs: seq<File>, id: Identity): int
    requires id in Ids(fs)
  {
    AllocationsInhabited(fs, id);
    MaxOf(AllocationsOf(fs, id))
  }

  ghost function LargestAllocations(fs: seq<File>): map<Identity, int> {
    map id | id in Ids(fs) :: LargestAllocation(fs, id)
  }

  ghost function NaiveTotals(fs: seq<File>, complete: bool): Totals {
    Totals(|fs|, SumLogical(fs), SumOver(LargestAllocations(fs)), |Ids(fs)|, complete,
           exists f, g :: f in fs && g in fs && Differ(f, g))
  }

  /** The directory's completing batch is there. */
  ghost predicate Delivered(bs: seq<Batch>, d: int) {
    exists c :: c in bs && c.directory == d && c.complete
  }

  /** Something was listed, and every listed directory has delivered its completing batch. */
  ghost predicate AllComplete(bs: seq<Batch>) {
    bs != [] && forall b :: b in bs ==> Delivered(bs, b.directory)
  }

  ghost function NaiveMeasure(log: seq<Batch>): Totals {
    NaiveTotals(AllFiles(Active(log)), AllComplete(Active(log)))
  }

  // ----- Elementary facts -----

  lemma {:induction false} OnlyWithout(bs: seq<Batch>, d: int, e: int)
    ensures Only(Without(bs, d), e) == if d == e then [] else Only(bs, e)
  {
    if bs != [] {
      var p, b := bs[..|bs| - 1], bs[|bs| - 1];
      OnlyWithout(p, d, e);
      if b.directory != d {
        var w := Without(p, d) + [b];
        assert w[..|w| - 1] == Without(p, d);
      } else {
        assert Without(bs, d) == Without(p, d);
      }
    }
  }

  lemma OnlyAppend(bs: seq<Batch>, b: Batch, d: int)
    ensures Only(bs + [b], d) == Only(bs, d) + if b.directory == d then [b] else []
  {
    assert (bs + [b])[..|bs|] == bs;
  }

  /** The effect of one more committed batch on a directory's counted batches. */
  lemma ActiveAppend(log: seq<Batch>, b: Batch, d: int)
    ensures Only(Active(log + [b]), d) ==
            if b.directory != d then Only(Active(log), d)
            else if b.ordinal == 0 then [b]
            else Only(Active(log), d) + [b]
  {
    assert (log + [b])[..|log|] == log;
    OnlyWithout(Active(log), b.directory, d);
    OnlyAppend(if b.ordinal == 0 then Without(Active(log), b.directory) else Active(log), b, d);
  }

  lemma {:induction false} OnlyMembers(bs: seq<Batch>, d: int, b: Batch)
    ensures b in Only(bs, d) <==> b in bs && b.directory == d
  {
    if bs != [] {
      OnlyMembers(bs[..|bs| - 1], d, b);
      assert bs == bs[..|bs| - 1] + [bs[|bs| - 1]];
    }
  }

  lemma {:induction false} AllFilesAppend(bs: seq<Batch>, b: Batch)
    ensures AllFiles(bs + [b]) == AllFiles(bs) + b.files
  {
    assert (bs + [b])[..|bs|] == bs;
  }

  lemma {:induction false} AllFilesMembers(bs: seq<Batch>, f: File)
    ensures f in AllFiles(bs) <==> exists b :: b in bs && f in b.files
  {
    if bs != [] {
      AllFilesMembers(bs[..|bs| - 1], f);
      assert bs == bs[..|bs| - 1] + [bs[|bs| - 1]];
    }
  }

  lemma {:induction false} SumLogicalConcat(fs: seq<File>, gs: seq<File>)
    ensures SumLogical(fs + gs) == SumLogical(fs) + SumLogical(gs)
  {
    if gs == [] {
      assert fs + gs == fs;
    } else {
      assert (fs + gs)[..|fs + gs| - 1] == fs + gs[..|gs| - 1];
      SumLogicalConcat(fs, gs[..|gs| - 1]);
    }
  }

  lemma {:induction false} ObservationsConcat(fs: seq<File>, gs: seq<File>, id: Identity)
    ensures Observations(fs + gs, id) == Observations(fs, id) + Observations(gs, id)
  {
    if gs == [] {
      assert fs + gs == fs;
    } else {
      assert (fs + gs)[..|fs + gs| - 1] == fs + gs[..|gs| - 1];
      ObservationsConcat(fs, gs[..|gs| - 1], id);
    }
  }

  lemma {:induction false} ObservationsMembers(fs: seq<File>, id: Identity, f: File)
    ensures f in Observations(fs, id) <==> f in fs && f.id == id
  {
    if fs != [] {
      ObservationsMembers(fs[..|fs| - 1], id, f);
      assert fs == fs[..|fs| - 1] + [fs[|fs| - 1]];
    }
  }

  // ----- Naive totals do not depend on order or batching -----

  lemma {:induction false} SumLogicalRemove(gs: seq<File>, i: nat)
    requires i < |gs|
    ensures SumLogical(gs) == SumLogical(gs[..i] + gs[i + 1..]) + gs[i].logical
  {
    var p := gs[..|gs| - 1];
    var rest := gs[..i] + gs[i + 1..];
    if i == |gs| - 1 {
      assert rest == p;
    } else {
      SumLogicalRemove(p, i);
      assert rest[..|rest| - 1] == p[..i] + p[i + 1..];
    }
  }

  lemma MultisetRemove(gs: seq<File>, i: nat)
    requires i < |gs|
    ensures multiset(gs[..i] + gs[i + 1..]) == multiset(gs) - multiset{gs[i]}
  {
    assert gs == gs[..i] + [gs[i]] + gs[i + 1..];
  }

  lemma {:induction false} SumLogicalPermutation(fs: seq<File>, gs: seq<File>)
    requires multiset(fs) == multiset(gs)
    ensures SumLogical(fs) == SumLogical(gs)
  {
    assert |fs| == |multiset(fs)| == |multiset(gs)| == |gs|;
    if fs != [] {
      var n := |fs| - 1;
      assert fs[n] in multiset(fs);
      var i :| 0 <= i < |gs| && gs[i] == fs[n];
      SumLogicalRemove(gs, i);
      MultisetRemove(fs, n);
      MultisetRemove(gs, i);
      assert fs[..n] + fs[n + 1..] == fs[..n];
      SumLogicalPermutation(fs[..n], gs[..i] + gs[i + 1..]);
    }
  }

  /** Identities, largest allocations and conflicts depend only on which observations occur. */
  lemma NaiveTotalsMembers(fs: seq<File>, gs: seq<File>)
    requires forall f :: f in fs <==> f in gs
    ensures Ids(fs) == Ids(gs)
    ensures LargestAllocations(fs) == LargestAllocations(gs)
  {
    forall id | id in Ids(fs)
      ensures id in Ids(gs) && LargestAllocation(fs, id) == LargestAllocation(gs, id)
    {
      assert AllocationsOf(fs, id) == AllocationsOf(gs, id);
    }
  }
}
