/** Hiding dismissed findings from a frozen page and selecting numbered rows from what remains. */
module ReviewPage {
  import opened Basics

  const TARGET_LIMIT: int := 20
  const SELECTED: string := "selected"
  const DISMISSED: string := "dismissed"

  datatype Finding = Finding(id: string, rootID: int, evidence: string)
  datatype Target = Target(findingID: string, binding: string)
  datatype Root = Root(id: int, path: string)
  datatype Diagnostic = Diagnostic(code: string, count: int)

  /** A page of saved findings; its targets bind the findings row by row. */
  datatype Snapshot = Snapshot(inventoryID: string, findings: seq<Finding>, targets: seq<Target>, roots: seq<Root>,
                               diagnostics: seq<Diagnostic>, nextCursor: string, coverage: string,
                               entryLimit: int, entriesExamined: int)

  // ----- Subsequences by position -----

  function At<T>(xs: seq<T>, idx: seq<nat>): seq<T>
    requires forall k :: 0 <= k < |idx| ==> idx[k] < |xs|
  {
    seq(|idx|, k requires 0 <= k < |idx| => xs[idx[k]])
  }

  ghost predicate Increasing(idx: seq<nat>, bound: nat) {
    && (forall k :: 0 <= k < |idx| ==> idx[k] < bound)
    && (forall k, l :: 0 <= k < l < |idx| ==> idx[k] < idx[l])
  }

  /** The positions below `n` that satisfy `keep`. */
  function Positions(keep: nat -> bool, n: nat): seq<nat> {
    if n == 0 then [] else Positions(keep, n - 1) + if keep(n - 1) then [n - 1] else []
  }

  lemma {:induction false} PositionsShape(keep: nat -> bool, n: nat)
    ensures Increasing(Positions(keep, n), n)
    ensures forall i :: i in Positions(keep, n) <==> 0 <= i < n && keep(i)
  {
    if n > 0 {
      PositionsShape(keep, n - 1);
    }
  }

  lemma PositionsIncrease(keep: nat -> bool, n: nat)
    ensures Increasing(Positions(keep, n), n)
  {
    PositionsShape(keep, n);
  }

  lemma AtCompose<T>(xs: seq<T>, a: seq<nat>, b: seq<nat>)
    requires Increasing(a, |xs|) && Increasing(b, |a|)
    ensures Increasing(At(a, b), |xs|) && At(At(xs, a), b) == At(xs, At(a, b))
  {
  }

  // ----- The dismissal filter -----

  function CountTrue(bs: seq<bool>): nat {
    if bs == [] then 0 else CountTrue(bs[..|bs| - 1]) + if bs[|bs| - 1] then 1 else 0
  }

  /** The binding of a finding in the table built from the page's targets: the last one wins. */
  function TargetOf(targets: seq<Target>, id: string): Option<Target> {
    if targets == [] then None
    else if targets[|targets| - 1].findingID == id then Some(targets[|targets| - 1])
    else TargetOf(targets[..|targets| - 1], id)
  }

  function TargetsOf(findings: seq<Finding>, targets: seq<Target>): seq<Target> {
    if findings == [] then [] else
      var t := TargetOf(targets, findings[|findings| - 1].id);
      TargetsOf(findings[..|findings| - 1], targets) + if t.Some? then [t.value] else []
  }

  function Shows(dismissed: seq<bool>, including: bool): nat -> bool {
    (i: nat) => including || (i < |dismissed| && !dismissed[i])
  }

  function Visible(findings: seq<Finding>, dismissed: seq<bool>, including: bool): seq<Finding> {
    PositionsShape(Shows(dismissed, including), |findings|);
    At(findings, Positions(Shows(dismissed, including), |findings|))
  }

  /** Every "selected" count lowered by the number hidden. */
  function Lowered(ds: seq<Diagnostic>, m: int): seq<Diagnostic> {
    if ds == [] then [] else
      var d := ds[|ds| - 1];
      Lowered(ds[..|ds| - 1], m) + [if d.code == SELECTED then d.(count := d.count - m) else d]
  }

  predicate CanLower(ds: seq<Diagnostic>, m: int) {
    && (exists i :: 0 <= i < |ds| && ds[i].code == SELECTED)
    && (forall i :: 0 <= i < |ds| && ds[i].code == SELECTED ==> ds[i].count >= m)
  }

  function Filtered(page: Snapshot, dismissed: seq<bool>, including: bool): Option<Snapshot> {
    var m := CountTrue(dismissed);
    var visible := Visible(page.findings, dismissed, including);
    var kept := page.(findings := visible, targets := TargetsOf(visible, page.targets));
    if |dismissed| != |page.findings| then None
    else if m == 0 || including then Some(kept)
    else if !CanLower(page.diagnostics, m) then None
    else Some(kept.(diagnostics := Lowered(page.diagnostics, m) + [Diagnostic(DISMISSED, m)]))
  }

  /** The table of targets as the loop builds it. */
  method TargetTable(targets: seq<Target>) returns (table: map<string, Target>)
    ensures forall id :: TargetOf(targets, id) == if id in table then Some(table[id]) else None
  {
    table := map[];
    for i := 0 to |targets|
      invariant forall id :: TargetOf(targets[..i], id) == if id in table then Some(table[id]) else None
    {
      assert targets[..i + 1][..i] == targets[..i];
      table := table[targets[i].findingID := targets[i]];
    }
    assert targets[..|targets|] == targets;
  }

  method LowerSelected(ds: seq<Diagnostic>, m: int) returns (ok: bool, r: seq<Diagnostic>)
    ensures ok == CanLower(ds, m)
    ensures ok ==> r == Lowered(ds, m)
  {
    r := [];
    var selected := false;
    for i := 0 to |ds|
      invariant r == Lowered(ds[..i], m)
      invariant selected == exists j :: 0 <= j < i && ds[j].code == SELECTED
      invariant forall j :: 0 <= j < i && ds[j].code == SELECTED ==> ds[j].count >= m
    {
      assert ds[..i + 1][..i] == ds[..i];
      var d := ds[i];
      if d.code == SELECTED {
        selected := true;
        d := d.(count := d.count - m);
        if d.count < 0 {
          return false, r;
        }
      }
      r := r + [d];
    }
    assert ds[..|ds|] == ds;
    ok := selected;
  }

  lemma TargetsOfNext(fs: seq<Finding>, f: Finding, targets: seq<Target>)
    ensures TargetsOf(fs + [f], targets) ==
            TargetsOf(fs, targets) + if TargetOf(targets, f.id).Some? then [TargetOf(targets, f.id).value] else []
  {
    assert (fs + [f])[..|fs|] == fs;
  }

  lemma CountNext(bs: seq<bool>, i: nat)
    requires i < |bs|
    ensures CountTrue(bs[..i + 1]) == CountTrue(bs[..i]) + if bs[i] then 1 else 0
  {
    assert bs[..i + 1][..i] == bs[..i];
  }

  /** The rows shown among the first n. */
  ghost function ShownRows(page: Snapshot, dismissed: seq<bool>, including: bool, n: nat): seq<Finding>
    requires n <= |page.findings|
  {
    PositionsShape(Shows(dismissed, including), n);
    At(page.findings, Positions(Shows(dismissed, including), n))
  }

  lemma ShownNext(page: Snapshot, dismissed: seq<bool>, including: bool, n: nat)
    requires n < |page.findings| == |dismissed|
    ensures ShownRows(page, dismissed, including, n + 1) ==
            ShownRows(page, dismissed, including, n) + if including || !dismissed[n] then [page.findings[n]] else []
  {
    var keep := Shows(dismissed, including);
    PositionsShape(keep, n);
    AtAppend(page.findings, Positions(keep, n), n);
  }

  method VisibleRows(page: Snapshot, dismissed: seq<bool>, including: bool)
    returns (findings: seq<Finding>, targets: seq<Target>, matched: nat)
    requires |dismissed| == |page.findings|
    ensures findings == Visible(page.findings, dismissed, including)
    ensures targets == TargetsOf(findings, page.targets) && matched == CountTrue(dismissed)
  {
    var table := TargetTable(page.targets);
    findings, targets, matched := [], [], 0;
    for i := 0 to |page.findings|
      invariant matched == CountTrue(dismissed[..i])
      invariant findings == ShownRows(page, dismissed, including, i)
      invariant targets == TargetsOf(findings, page.targets)
    {
      CountNext(dismissed, i);
      ShownNext(page, dismissed, including, i);
      if dismissed[i] {
        matched := matched + 1;
        if !including {
          continue;
        }
      }
      var finding := page.findings[i];
      TargetsOfNext(findings, finding, page.targets);
      findings := findings + [finding];
      if finding.id in table {
        targets := targets + [table[finding.id]];
      }
    }
    assert dismissed[..|page.findings|] == dismissed;
  }

  method FilterPage(page: Snapshot, dismissed: seq<bool>, including: bool) returns (r: Option<Snapshot>)
    ensures r == Filtered(page, dismissed, including)
  {
    if |dismissed| != |page.findings| {
      return None;
    }
    var findings, targets, matched := VisibleRows(page, dismissed, including);
    var kept := page.(findings := findings, targets := targets);
    if matched == 0 || including {
      return Some(kept);
    }
    var ok, lowered := LowerSelected(page.diagnostics, matched);
    if !ok {
      return None;
    }
    r := Some(kept.(diagnostics := lowered + [Diagnostic(DISMISSED, matched)]));
  }

  // ----- The numbered selection -----

  predicate ValidNumbers(ns: seq<int>, rows: nat) {
    (forall i :: 0 <= i < |ns| ==> 1 <= ns[i] <= rows) && forall i, j :: 0 <= i < j < |ns| ==> ns[i] != ns[j]
  }

  function Numbered(ns: seq<int>): nat -> bool {
    (i: nat) => i + 1 in ns
  }

  function ChosenRows(ns: seq<int>, rows: nat): (idx: seq<nat>)
    ensures Increasing(idx, rows)
  {
    PositionsShape(Numbered(ns), rows);
    Positions(Numbered(ns), rows)
  }

  function RootOf(roots: seq<Root>, id: int): Option<Root> {
    if roots == [] then None
    else if roots[|roots| - 1].id == id then Some(roots[|roots| - 1])
    else RootOf(roots[..|roots| - 1], id)
  }

  predicate UniqueRoots(roots: seq<Root>) {
    forall i, j :: 0 <= i < j < |roots| ==> roots[i].id != roots[j].id
  }

  predicate Refers(fs: seq<Finding>, id: int) {
    exists i :: 0 <= i < |fs| && fs[i].rootID == id
  }

  /** The roots that the findings refer to, each at its first reference. */
  function RootsFor(fs: seq<Finding>, roots: seq<Root>): seq<Root> {
    if fs == [] then [] else
      var before, f := fs[..|fs| - 1], fs[|fs| - 1];
      RootsFor(before, roots) +
      if Refers(before, f.rootID) || RootOf(roots, f.rootID).None? then [] else [RootOf(roots, f.rootID).value]
  }

  function Recounted(ds: seq<Diagnostic>, n: int): seq<Diagnostic> {
    seq(|ds|, i requires 0 <= i < |ds| => ds[i].(count := if ds[i].code == SELECTED then n else 0))
  }

  /** Each chosen row is bound to its own finding and refers to a known root. */
  predicate Bound(page: Snapshot, idx: seq<nat>)
    requires |page.targets| == |page.findings| && forall k :: 0 <= k < |idx| ==> idx[k] < |page.findings|
  {
    forall k :: 0 <= k < |idx| ==> Copyable(page, idx[k])
  }

  predicate Selectable(page: Snapshot, displayed: seq<Finding>, ns: seq<int>) {
    && 1 <= |ns| <= TARGET_LIMIT && |page.targets| == |page.findings| <= TARGET_LIMIT && displayed == page.findings
    && ValidNumbers(ns, |page.findings|) && UniqueRoots(page.roots)
    && Bound(page, ChosenRows(ns, |page.findings|))
  }

  function Selection(page: Snapshot, ns: seq<int>): Snapshot
    requires |page.targets| == |page.findings|
  {
    var idx := ChosenRows(ns, |page.findings|);
    Snapshot(page.inventoryID, At(page.findings, idx), At(page.targets, idx),
             RootsFor(At(page.findings, idx), page.roots),
             Recounted(page.diagnostics, |ns|), "", "selected_entries_only", |ns|, |ns|)
  }

  method NumbersValid(ns: seq<int>, rows: nat) returns (ok: bool, selected: set<int>)
    ensures ok == ValidNumbers(ns, rows)
    ensures ok ==> forall n :: n in selected <==> n in ns
  {
    selected := {};
    for i := 0 to |ns|
      invariant ValidNumbers(ns[..i], rows)
      invariant forall n :: n in selected <==> n in ns[..i]
    {
      assert ns[..i + 1] == ns[..i] + [ns[i]];
      if ns[i] < 1 || ns[i] > rows || ns[i] in selected {
        assert ns[i] in ns[..i] ==> exists j :: 0 <= j < i && ns[j] == ns[i];
        return false, selected;
      }
      selected := selected + {ns[i]};
    }
    assert ns[..|ns|] == ns;
    ok := true;
  }

  /** The table knows exactly these roots. */
  ghost predicate Tabled(table: map<int, Root>, roots: seq<Root>) {
    forall id :: RootOf(roots, id) == if id in table then Some(table[id]) else None
  }

  method RootTable(roots: seq<Root>) returns (ok: bool, table: map<int, Root>)
    ensures ok == UniqueRoots(roots)
    ensures ok ==> Tabled(table, roots)
  {
    table := map[];
    for i := 0 to |roots|
      invariant UniqueRoots(roots[..i])
      invariant Tabled(table, roots[..i])
    {
      assert roots[..i + 1][..i] == roots[..i];
      RootOfMembers(roots[..i], roots[i].id);
      if roots[i].id in table {
        return false, table;
      }
      table := table[roots[i].id := roots[i]];
    }
    assert roots[..|roots|] == roots;
    ok := true;
  }

  lemma {:induction false} RootOfMembers(roots: seq<Root>, id: int)
    ensures RootOf(roots, id).Some? <==> exists i :: 0 <= i < |roots| && roots[i].id == id
    ensures RootOf(roots, id).Some? ==> RootOf(roots, id).value in roots && RootOf(roots, id).value.id == id
  {
    if roots != [] && roots[|roots| - 1].id != id {
      RootOfMembers(roots[..|roots| - 1], id);
    }
  }

  /** The loop's variables hold the chosen rows so far, with their roots at first reference. */
  ghost predicate Copied(page: Snapshot, idx: seq<nat>, findings: seq<Finding>, targets: seq<Target>,
                         roots: seq<Root>, seen: set<int>) {
    && |page.targets| == |page.findings| && Increasing(idx, |page.findings|) && Bound(page, idx)
    && findings == At(page.findings, idx) && targets == At(page.targets, idx) && roots == RootsFor(findings, page.roots)
    && forall id :: id in seen <==> Refers(findings, id)
  }

  lemma RefersAppend(fs: seq<Finding>, f: Finding, id: int)
    ensures Refers(fs + [f], id) <==> Refers(fs, id) || f.rootID == id
  {
    assert (fs + [f])[|fs|] == f;
    assert forall i :: 0 <= i < |fs| ==> (fs + [f])[i] == fs[i];
  }

  lemma CopyOne(page: Snapshot, idx: seq<nat>, i: nat, findings: seq<Finding>, targets: seq<Target>,
                roots: seq<Root>, seen: set<int>)
    requires Copied(page, idx, findings, targets, roots, seen) && i < |page.findings|
             && forall k :: 0 <= k < |idx| ==> idx[k] < i
    requires Copyable(page, i)
    ensures var f := page.findings[i];
            Copied(page, idx + [i], findings + [f], targets + [page.targets[i]],
                   if f.rootID in seen then roots else roots + [RootOf(page.roots, f.rootID).value], seen + {f.rootID})
  {
    var f := page.findings[i];
    assert (findings + [f])[..|findings|] == findings;
    forall id ensures Refers(findings + [f], id) <==> Refers(findings, id) || f.rootID == id {
      RefersAppend(findings, f, id);
    }
    assert RootsFor(findings + [f], page.roots) ==
           if f.rootID in seen then roots else roots + [RootOf(page.roots, f.rootID).value];
  }

  lemma ReferredKnown(page: Snapshot, idx: seq<nat>, id: int)
    requires |page.targets| == |page.findings| && Increasing(idx, |page.findings|) && Bound(page, idx)
    requires Refers(At(page.findings, idx), id)
    ensures RootOf(page.roots, id).Some?
  {
  }

  ghost predicate Selects(keep: nat -> bool, selected: set<int>) {
    forall i: nat :: keep(i) == (i + 1 in selected)
  }

  /** The row can be copied: its target is its own and its root is known. */
  predicate Copyable(page: Snapshot, i: nat)
    requires i < |page.findings| == |page.targets|
  {
    page.targets[i].findingID == page.findings[i].id && RootOf(page.roots, page.findings[i].rootID).Some?
  }

  /** What the loop over the rows has gathered. */
  datatype Rows = Rows(findings: seq<Finding>, targets: seq<Target>, roots: seq<Root>, seen: set<int>)

  /** One chosen row more, if it is bound to its own finding and refers to a known root. */
  function CopyRow(page: Snapshot, table: map<int, Root>, rows: Rows, i: nat): Option<Rows>
    requires i < |page.findings| == |page.targets|
  {
    var f, t := page.findings[i], page.targets[i];
    if t.findingID != f.id || (f.rootID !in rows.seen && f.rootID !in table) then None
    else Some(Rows(rows.findings + [f], rows.targets + [t],
                   if f.rootID in rows.seen then rows.roots else rows.roots + [table[f.rootID]],
                   rows.seen + {f.rootID}))
  }

  function CopyUpTo(page: Snapshot, selected: set<int>, table: map<int, Root>, n: nat): Option<Rows>
    requires n <= |page.findings| == |page.targets|
  {
    if n == 0 then Some(Rows([], [], [], {})) else
      var before := CopyUpTo(page, selected, table, n - 1);
      if before.None? || n !in selected then before else CopyRow(page, table, before.value, n - 1)
  }

  /** The loop over the page's rows: the chosen ones are copied in page order. */
  method CopyRows(page: Snapshot, selected: set<int>, table: map<int, Root>) returns (r: Option<Rows>)
    requires |page.targets| == |page.findings|
    ensures r == CopyUpTo(page, selected, table, |page.findings|)
  {
    r := Some(Rows([], [], [], {}));
    for i := 0 to |page.findings|
      invariant r == CopyUpTo(page, selected, table, i)
    {
      if i + 1 !in selected || r.None? {
        continue;
      }
      var f, rows := page.findings[i], r.value;
      if page.targets[i].findingID != f.id {
        r := None;
        continue;
      }
      var roots := rows.roots;
      if f.rootID !in rows.seen {
        if f.rootID !in table {
          r := None;
          continue;
        }
        roots := roots + [table[f.rootID]];
      }
      r := Some(Rows(rows.findings + [f], rows.targets + [page.targets[i]], roots, rows.seen + {f.rootID}));
    }
  }

  lemma PositionsNext(keep: nat -> bool, i: nat)
    ensures Positions(keep, i + 1) == if keep(i) then Positions(keep, i) + [i] else Positions(keep, i)
  {
  }

  ghost predicate CopiedRows(page: Snapshot, idx: seq<nat>, rows: Rows) {
    Copied(page, idx, rows.findings, rows.targets, rows.roots, rows.seen)
  }

  lemma BoundNext(page: Snapshot, idx: seq<nat>, i: nat)
    requires i < |page.findings| == |page.targets| && forall k :: 0 <= k < |idx| ==> idx[k] < |page.findings|
    ensures Bound(page, idx + [i]) <==> Bound(page, idx) && Copyable(page, i)
  {
    if Bound(page, idx + [i]) {
      assert (idx + [i])[|idx|] == i;
      forall k | 0 <= k < |idx| ensures Copyable(page, idx[k]) {
        assert (idx + [i])[k] == idx[k];
      }
    }
  }

  /** One row more, against the rows copied so far. */
  lemma CopyRowExact(page: Snapshot, table: map<int, Root>, rows: Rows, idx: seq<nat>, i: nat)
    requires i < |page.findings| == |page.targets| && Tabled(table, page.roots)
    requires CopiedRows(page, idx, rows) && forall k :: 0 <= k < |idx| ==> idx[k] < i
    ensures CopyRow(page, table, rows, i).Some? <==> Copyable(page, i)
    ensures Copyable(page, i) ==> CopiedRows(page, idx + [i], CopyRow(page, table, rows, i).value)
  {
    var id := page.findings[i].rootID;
    if id in rows.seen {
      ReferredKnown(page, idx, id);
    }
    if Copyable(page, i) {
      CopyOne(page, idx, i, rows.findings, rows.targets, rows.roots, rows.seen);
    }
  }

  lemma NothingCopied(page: Snapshot)
    requires |page.targets| == |page.findings|
    ensures CopiedRows(page, [], Rows([], [], [], {}))
  {
  }

  lemma CopyNext(page: Snapshot, selected: set<int>, table: map<int, Root>, n: nat)
    requires 0 < n <= |page.findings| == |page.targets|
    ensures var before := CopyUpTo(page, selected, table, n - 1);
            CopyUpTo(page, selected, table, n) ==
            if before.None? || n !in selected then before else CopyRow(page, table, before.value, n - 1)
  {
  }

  /** The loop succeeds exactly when every chosen row can be copied, and has then copied these rows. */
  lemma {:induction false} CopyUpToExact(page: Snapshot, selected: set<int>, table: map<int, Root>,
                                         keep: nat -> bool, n: nat)
    requires n <= |page.findings| == |page.targets| && Selects(keep, selected) && Tabled(table, page.roots)
    ensures Increasing(Positions(keep, n), n)
    ensures CopyUpTo(page, selected, table, n).Some? <==> Bound(page, Positions(keep, n))
    ensures Bound(page, Positions(keep, n)) ==> CopiedRows(page, Positions(keep, n),
              CopyUpTo(page, selected, table, n).value)
  {
    PositionsIncrease(keep, n);
    if n == 0 {
      NothingCopied(page);
    } else {
      CopyUpToExact(page, selected, table, keep, n - 1);
      CopyNext(page, selected, table, n);
      PositionsNext(keep, n - 1);
      assert keep(n - 1) == (n in selected);
      if n in selected {
        LastRow(page, selected, table, Positions(keep, n - 1), n);
      }
    }
  }

  lemma LastRow(page: Snapshot, selected: set<int>, table: map<int, Root>, idx: seq<nat>, n: nat)
    requires 0 < n <= |page.findings| == |page.targets| && n in selected && Tabled(table, page.roots)
    requires Increasing(idx, n - 1) && (CopyUpTo(page, selected, table, n - 1).Some? <==> Bound(page, idx))
    requires Bound(page, idx) ==> CopiedRows(page, idx, CopyUpTo(page, selected, table, n - 1).value)
    ensures CopyUpTo(page, selected, table, n).Some? <==> Bound(page, idx + [n - 1])
    ensures Bound(page, idx + [n - 1]) ==> CopiedRows(page, idx + [n - 1], CopyUpTo(page, selected, table, n).value)
  {
    CopyNext(page, selected, table, n);
    BoundNext(page, idx, n - 1);
    if Bound(page, idx) {
      CopyRowExact(page, table, CopyUpTo(page, selected, table, n - 1).value, idx, n - 1);
    }
  }

  method SelectPage(page: Snapshot, displayed: seq<Finding>, ns: seq<int>) returns (r: Option<Snapshot>)
    ensures r == if Selectable(page, displayed, ns) then Some(Selection(page, ns)) else None
  {
    if |ns| < 1 || |ns| > TARGET_LIMIT || |page.targets| != |page.findings| || |page.targets| > TARGET_LIMIT
       || displayed != page.findings {
      return None;
    }
    var ok, selected := NumbersValid(ns, |page.findings|);
    if !ok {
      return None;
    }
    var table;
    ok, table := RootTable(page.roots);
    if !ok {
      return None;
    }
    var rows := CopyRows(page, selected, table);
    SelectsNumbered(ns, selected);
    CopyUpToExact(page, selected, table, Numbered(ns), |page.findings|);
    if rows.None? {
      return None;
    }
    r := Some(Snapshot(page.inventoryID, rows.value.findings, rows.value.targets, rows.value.roots,
                       Recounted(page.diagnostics, |ns|), "", "selected_entries_only", |ns|, |ns|));
  }

  lemma SelectsNumbered(ns: seq<int>, selected: set<int>)
    requires forall n :: n in selected <==> n in ns
    ensures Selects(Numbered(ns), selected)
  {
  }

  // ----- Filtering and selecting together -----

  /** Each finding has its own ID, and the targets bind the findings row by row. */
  ghost predicate AlignedPage(page: Snapshot) {
    && (forall i, j :: 0 <= i < j < |page.findings| ==> page.findings[i].id != page.findings[j].id)
    && |page.targets| == |page.findings|
    && (forall i :: 0 <= i < |page.findings| ==> page.targets[i].findingID == page.findings[i].id)
  }

  lemma {:induction false} TargetOfAligned(targets: seq<Target>, i: nat)
    requires i < |targets| && forall j, k :: 0 <= j < k < |targets| ==> targets[j].findingID != targets[k].findingID
    ensures TargetOf(targets, targets[i].findingID) == Some(targets[i])
  {
    if i < |targets| - 1 {
      TargetOfAligned(targets[..|targets| - 1], i);
    }
  }

  lemma AtAppend<T>(xs: seq<T>, idx: seq<nat>, i: nat)
    requires i < |xs| && forall k :: 0 <= k < |idx| ==> idx[k] < |xs|
    ensures At(xs, idx + [i]) == At(xs, idx) + [xs[i]]
  {
  }

  lemma {:induction false} TargetsOfAligned(page: Snapshot, idx: seq<nat>)
    requires AlignedPage(page) && forall k :: 0 <= k < |idx| ==> idx[k] < |page.findings|
    ensures TargetsOf(At(page.findings, idx), page.targets) == At(page.targets, idx)
  {
    if idx != [] {
      var p, i := idx[..|idx| - 1], idx[|idx| - 1];
      assert idx == p + [i];
      TargetsOfAligned(page, p);
      AtAppend(page.findings, p, i);
      AtAppend(page.targets, p, i);
      TargetOfAligned(page.targets, i);
      TargetsOfNext(At(page.findings, p), page.findings[i], page.targets);
    }
  }

  /** Filtering keeps exactly the rows that are not dismissed, in page order, each with its target. */
  lemma FilterKeepsRows(page: Snapshot, dismissed: seq<bool>)
    requires AlignedPage(page) && Filtered(page, dismissed, false).Some?
    ensures var f := Filtered(page, dismissed, false).value;
            var idx := Positions(Shows(dismissed, false), |page.findings|);
            && Increasing(idx, |page.findings|) && (forall i :: i in idx <==> 0 <= i < |page.findings| && !dismissed[i])
            && f.findings == At(page.findings, idx) && f.targets == At(page.targets, idx) && AlignedPage(f)
  {
    var keep := Shows(dismissed, false);
    PositionsShape(keep, |page.findings|);
    TargetsOfAligned(page, Positions(keep, |page.findings|));
  }

  /** Lowering changes the "selected" counts and nothing else. */
  lemma {:induction false} LoweredShape(ds: seq<Diagnostic>, m: int)
    ensures |Lowered(ds, m)| == |ds|
    ensures forall i :: 0 <= i < |ds| ==>
              Lowered(ds, m)[i] == Diagnostic(ds[i].code, ds[i].count - if ds[i].code == "selected" then m else 0)
  {
    if ds != [] {
      LoweredShape(ds[..|ds| - 1], m);
    }
  }

  ghost function TypedUpTo(ns: seq<int>, rows: int): set<int> {
    set n | n in ns && n <= rows
  }

  lemma {:induction false} ChosenUpTo(ns: seq<int>, rows: nat)
    requires forall n :: n in ns ==> n >= 1
    ensures |Positions(Numbered(ns), rows)| == |TypedUpTo(ns, rows)|
  {
    if rows == 0 {
      assert TypedUpTo(ns, 0) == {};
    } else {
      ChosenUpTo(ns, rows - 1);
      assert TypedUpTo(ns, rows) == TypedUpTo(ns, rows - 1) + if rows in ns then {rows as int} else {};
    }
  }

  /** As many rows are chosen as numbers are typed. */
  lemma ChosenCount(ns: seq<int>, rows: nat)
    requires ValidNumbers(ns, rows)
    ensures |ChosenRows(ns, rows)| == |ns|
  {
    ChosenUpTo(ns, rows);
    DistinctSize(ns);
    assert TypedUpTo(ns, rows) == set n | n in ns;
  }

  lemma {:induction false} DistinctSize(ns: seq<int>)
    requires forall i, j :: 0 <= i < j < |ns| ==> ns[i] != ns[j]
    ensures |set n | n in ns| == |ns|
  {
    if ns != [] {
      var p, n := ns[..|ns| - 1], ns[|ns| - 1];
      DistinctSize(p);
      assert ns == p + [n];
      assert (set m | m in ns) == (set m | m in p) + {n};
    }
  }

  /** The typed numbers pick exactly the rows shown under them. */
  lemma ChosenExactly(kept: seq<nat>, ns: seq<int>)
    ensures var rows := At(kept, ChosenRows(ns, |kept|));
            forall i :: i in rows <==> exists k :: 0 <= k < |kept| && k + 1 in ns && kept[k] == i
  {
    var keep, chosen := Numbered(ns), ChosenRows(ns, |kept|);
    var rows := At(kept, chosen);
    PositionsShape(keep, |kept|);
    forall i | i in rows ensures exists k :: 0 <= k < |kept| && k + 1 in ns && kept[k] == i {
      var j :| 0 <= j < |rows| && rows[j] == i;
      assert chosen[j] in chosen && keep(chosen[j]);
    }
    forall k | 0 <= k < |kept| && k + 1 in ns ensures kept[k] in rows {
      assert keep(k) && k in chosen;
      var j :| 0 <= j < |chosen| && chosen[j] == k;
      assert rows[j] == kept[k];
    }
  }

  /** The selection's roots are roots of the page: each one that a finding refers to once, and no other. */
  ghost predicate EachRootOnce(r: Snapshot, roots: seq<Root>) {
    && (forall i, j :: 0 <= i < j < |r.roots| ==> r.roots[i].id != r.roots[j].id)
    && (forall root :: root in r.roots ==> root in roots && Refers(r.findings, root.id))
    && (forall id :: Refers(r.findings, id) ==> exists root :: root in r.roots && root.id == id)
  }

  lemma SelectedRoots(page: Snapshot, ns: seq<int>)
    requires Selectable(page, page.findings, ns)
    ensures EachRootOnce(Selection(page, ns), page.roots)
  {
    var idx := ChosenRows(ns, |page.findings|);
    var fs := At(page.findings, idx);
    forall i | 0 <= i < |fs| ensures RootOf(page.roots, fs[i].rootID).Some? {
      assert Copyable(page, idx[i]);
    }
    RootsForExact(fs, page.roots);
  }

  /** What a selection from a filtered page is: exactly the rows shown under the typed numbers, in
      page order, none dismissed, findings and targets still bound to each other, with every root they
      refer to once and no other. */
  lemma SelectedFromFiltered(page: Snapshot, dismissed: seq<bool>, ns: seq<int>) returns (rows: seq<nat>)
    requires AlignedPage(page) && Filtered(page, dismissed, false).Some?
    requires var f := Filtered(page, dismissed, false).value; Selectable(f, f.findings, ns)
    ensures var r := Selection(Filtered(page, dismissed, false).value, ns);
            && Increasing(rows, |page.findings|) && (forall k :: 0 <= k < |rows| ==> !dismissed[rows[k]])
            && r.findings == At(page.findings, rows) && r.targets == At(page.targets, rows) && AlignedPage(r)
    ensures var kept := Positions(Shows(dismissed, false), |page.findings|);
            forall i :: i in rows <==> exists k :: 0 <= k < |kept| && k + 1 in ns && kept[k] == i
    ensures var r := Selection(Filtered(page, dismissed, false).value, ns);
            && EachRootOnce(r, page.roots) && |r.diagnostics| >= |page.diagnostics|
            && (forall i :: 0 <= i < |page.diagnostics| ==> r.diagnostics[i].code == page.diagnostics[i].code)
            && (forall i :: 0 <= i < |r.diagnostics| ==>
                  r.diagnostics[i].count == if r.diagnostics[i].code == "selected" then |rows| else 0)
            && r.entryLimit == r.entriesExamined == |rows| == |ns|
            && r.inventoryID == page.inventoryID && r.nextCursor == "" && r.coverage == "selected_entries_only"
  {
    FilterKeepsRows(page, dismissed);
    var f := Filtered(page, dismissed, false).value;
    var kept := Positions(Shows(dismissed, false), |page.findings|);
    var chosen := ChosenRows(ns, |f.findings|);
    AtCompose(page.findings, kept, chosen);
    AtCompose(page.targets, kept, chosen);
    rows := At(kept, chosen);
    ChosenExactly(kept, ns);
    SelectedRoots(f, ns);
    ChosenCount(ns, |f.findings|);
    LoweredShape(page.diagnostics, CountTrue(dismissed));
    forall k | 0 <= k < |rows| ensures !dismissed[rows[k]] {
      assert kept[chosen[k]] in kept;
    }
  }

  /** The order in which the numbers are typed does not matter. */
  lemma TypingOrderImmaterial(page: Snapshot, displayed: seq<Finding>, ns: seq<int>, ns': seq<int>)
    requires multiset(ns) == multiset(ns') && Selectable(page, displayed, ns)
    ensures Selectable(page, displayed, ns') && Selection(page, ns') == Selection(page, ns)
  {
    assert |ns| == |multiset(ns)| == |multiset(ns')| == |ns'|;
    forall n: int ensures n in ns <==> n in ns' {
      assert n in ns <==> n in multiset(ns);
      assert n in ns' <==> n in multiset(ns');
    }
    PositionsSame(Numbered(ns), Numbered(ns'), |page.findings|);
    PermutedValid(ns, ns', |page.findings|);
  }

  lemma {:induction false} PositionsSame(a: nat -> bool, b: nat -> bool, n: nat)
    requires forall i: nat :: i < n ==> a(i) == b(i)
    ensures Positions(a, n) == Positions(b, n)
  {
    if n > 0 {
      PositionsSame(a, b, n - 1);
    }
  }

  lemma PermutedValid(ns: seq<int>, ns': seq<int>, rows: nat)
    requires multiset(ns) == multiset(ns') && ValidNumbers(ns, rows)
    ensures ValidNumbers(ns', rows)
  {
    forall i | 0 <= i < |ns'| ensures 1 <= ns'[i] <= rows {
      assert ns'[i] in multiset(ns');
      assert ns'[i] in multiset(ns);
      var k :| 0 <= k < |ns| && ns[k] == ns'[i];
    }
    forall i, j | 0 <= i < j < |ns'| ensures ns'[i] != ns'[j] {
      if ns'[i] == ns'[j] {
        TwiceCounted(ns', i, j);
        DistinctOnce(ns, ns'[i]);
      }
    }
  }

  lemma TwiceCounted(ns: seq<int>, i: nat, j: nat)
    requires i < j < |ns| && ns[i] == ns[j]
    ensures multiset(ns)[ns[i]] >= 2
  {
    assert ns == ns[..i] + [ns[i]] + ns[i + 1..j] + [ns[j]] + ns[j + 1..];
  }

  lemma {:induction false} DistinctOnce(ns: seq<int>, x: int)
    requires forall i, j :: 0 <= i < j < |ns| ==> ns[i] != ns[j]
    ensures multiset(ns)[x] <= 1
  {
    if ns != [] {
      var p := ns[..|ns| - 1];
      DistinctOnce(p, x);
      assert ns == p + [ns[|ns| - 1]];
      if x == ns[|ns| - 1] {
        assert x !in p;
        assert x !in multiset(p);
      }
    }
  }

  // ----- Roots -----

  /** Every root that a selected finding refers to is returned exactly once, and no other. */
  lemma {:induction false} RootsForExact(fs: seq<Finding>, roots: seq<Root>)
    requires forall i :: 0 <= i < |fs| ==> RootOf(roots, fs[i].rootID).Some?
    ensures forall i, j :: 0 <= i < j < |RootsFor(fs, roots)| ==> RootsFor(fs, roots)[i].id != RootsFor(fs, roots)[j].id
    ensures forall r :: r in RootsFor(fs, roots) ==> r in roots && Refers(fs, r.id)
    ensures forall id :: Refers(fs, id) ==> exists r :: r in RootsFor(fs, roots) && r.id == id
  {
    if fs != [] {
      var p, f := fs[..|fs| - 1], fs[|fs| - 1];
      RootsForExact(p, roots);
      RootOfMembers(roots, f.rootID);
      forall id ensures Refers(fs, id) <==> Refers(p, id) || f.rootID == id {
        RefersAppend(p, f, id);
        assert fs == p + [f];
      }
      var before, after := RootsFor(p, roots), RootsFor(fs, roots);
      forall id | Refers(fs, id) ensures exists r :: r in after && r.id == id {
        if Refers(p, id) {
          var r :| r in before && r.id == id;
          assert r in after;
        } else {
          assert RootOf(roots, f.rootID).value in after;
        }
      }
    }
  }

  // ----- Diagnostics -----

  function Total(ds: seq<Diagnostic>): int {
    if ds == [] then 0 else Total(ds[..|ds| - 1]) + ds[|ds| - 1].count
  }

  function SelectedEntries(ds: seq<Diagnostic>): nat {
    if ds == [] then 0 else SelectedEntries(ds[..|ds| - 1]) + if ds[|ds| - 1].code == SELECTED then 1 else 0
  }

  lemma {:induction false} LoweredTotal(ds: seq<Diagnostic>, m: int)
    ensures Total(Lowered(ds, m)) == Total(ds) - SelectedEntries(ds) * m
  {
    if ds != [] {
      var p := ds[..|ds| - 1];
      LoweredTotal(p, m);
      var l := Lowered(ds, m);
      assert l[..|l| - 1] == Lowered(p, m);
      assert (SelectedEntries(p) + 1) * m == SelectedEntries(p) * m + m;
    }
  }

  /** Hiding findings conserves the page's diagnostic total exactly when nothing is hidden or there
      is exactly one "selected" entry to lower. */
  lemma FilterConservesTotal(page: Snapshot, dismissed: seq<bool>)
    requires Filtered(page, dismissed, false).Some?
    ensures Total(Filtered(page, dismissed, false).value.diagnostics) == Total(page.diagnostics) <==>
            CountTrue(dismissed) == 0 || SelectedEntries(page.diagnostics) == 1
  {
    var m, k := CountTrue(dismissed), SelectedEntries(page.diagnostics);
    if m > 0 {
      var lowered := Lowered(page.diagnostics, m);
      LoweredTotal(page.diagnostics, m);
      assert (lowered + [Diagnostic(DISMISSED, m)])[..|lowered|] == lowered;
      assert Total(Filtered(page, dismissed, false).value.diagnostics) == Total(page.diagnostics) - k * m + m;
      assert k * m == m <==> k == 1;
    }
  }

  /** A page with two "selected" entries does not conserve its total. */
  lemma TwoSelectedEntriesMiscount()
    ensures exists page: Snapshot, dismissed :: Filtered(page, dismissed, false).Some?
              && Total(Filtered(page, dismissed, false).value.diagnostics) != Total(page.diagnostics)
  {
    var f := Finding("f", 1, "");
    var page := Snapshot("", [f], [Target("f", "")], [], [Diagnostic(SELECTED, 1), Diagnostic(SELECTED, 1)], "",
        "", 1, 1);
    var ds := page.diagnostics;
    assert [true][..0] == [] && CountTrue([true]) == 1;
    assert ds[..1] == [ds[0]] && [ds[0]][..0] == [];
    assert SelectedEntries([ds[0]]) == 1 && SelectedEntries(ds) == 2;
    assert ds[0].code == SELECTED && CanLower(ds, 1);
    FilterConservesTotal(page, [true]);
  }
}
