/** What a filtered page and a selection hold, entry by entry and field by field. */
module PageMeaning {
  import opened Basics
  import opened ReviewPage

  // ----- Looking up -----

  /** The last target of a finding. */
  lemma {:induction false} TargetOfExactly(targets: seq<Target>, id: string, t: Target)
    ensures TargetOf(targets, id) == Some(t) <==>
            exists i :: 0 <= i < |targets| && targets[i] == t && t.findingID == id &&
                        forall j :: i < j < |targets| ==> targets[j].findingID != id
  {
    if targets != [] {
      var n := |targets| - 1;
      TargetOfExactly(targets[..n], id, t);
      if targets[n].findingID != id && TargetOf(targets, id) == Some(t) {
        var i :| 0 <= i < n && targets[..n][i] == t && t.findingID == id &&
            forall j :: i < j < n ==> targets[..n][j].findingID != id;
        forall j | i < j < |targets| ensures targets[j].findingID != id {
          if j < n {
            assert targets[..n][j] == targets[j];
          }
        }
        assert targets[i] == t;
      }
    }
  }

  /** A root is found exactly if its number is there. */
  lemma {:induction false} RootOfExactly(roots: seq<Root>, id: int)
    ensures RootOf(roots, id).Some? <==> exists i :: 0 <= i < |roots| && roots[i].id == id
    ensures RootOf(roots, id).Some? ==> RootOf(roots, id).value in roots && RootOf(roots, id).value.id == id
  {
    if roots != [] {
      RootOfExactly(roots[..|roots| - 1], id);
    }
  }

  // ----- Filtering -----

  ghost function Hidden(dismissed: seq<bool>): set<int> {
    set i | 0 <= i < |dismissed| && dismissed[i]
  }

  lemma {:induction false} HiddenCount(dismissed: seq<bool>)
    ensures CountTrue(dismissed) == |Hidden(dismissed)|
  {
    if dismissed == [] {
      assert Hidden(dismissed) == {};
    } else {
      var n := |dismissed| - 1;
      HiddenCount(dismissed[..n]);
      assert Hidden(dismissed) == Hidden(dismissed[..n]) + if dismissed[n] then {n} else {};
    }
  }

  /** A page can be filtered exactly if there is an answer for each finding and, unless nothing is to be
      hidden, a "selected" entry, and every such entry counts at least as many as are hidden. */
  lemma FilterableExactly(page: Snapshot, dismissed: seq<bool>, including: bool)
    ensures var hidden, ds := |Hidden(dismissed)|, page.diagnostics;
            Filtered(page, dismissed, including).Some? <==>
            && |dismissed| == |page.findings|
            && (including || hidden == 0 ||
                ((exists i :: 0 <= i < |ds| && ds[i].code == "selected") &&
                 forall i :: 0 <= i < |ds| && ds[i].code == "selected" ==> ds[i].count >= hidden))
  {
    HiddenCount(dismissed);
  }

  /** The rows that are shown. */
  ghost predicate ShownAre(page: Snapshot, dismissed: seq<bool>, including: bool, rows: seq<nat>) {
    && (forall k, l :: 0 <= k < l < |rows| ==> rows[k] < rows[l])
    && forall i: nat :: i in rows <==> i < |page.findings| && (including || (i < |dismissed| && !dismissed[i]))
  }

  /** A filtered page: the findings that are not hidden, in page order; each "selected" count lowered by the
      number of hidden ones, which the one new entry counts; and everything else as it was. */
  lemma FilteredExactly(page: Snapshot, dismissed: seq<bool>, including: bool) returns (rows: seq<nat>)
    requires Filtered(page, dismissed, including).Some?
    ensures ShownAre(page, dismissed, including, rows)
    ensures var f := Filtered(page, dismissed, including).value;
            && f == page.(findings := f.findings, targets := f.targets, diagnostics := f.diagnostics)
            && |f.findings| == |rows| && forall k :: 0 <= k < |rows| ==>
                 rows[k] < |page.findings| && f.findings[k] == page.findings[rows[k]]
    ensures var f, hidden, ds := Filtered(page, dismissed, including).value, |Hidden(dismissed)|, page.diagnostics;
            if including || hidden == 0 then f.diagnostics == ds
            else && |f.diagnostics| == |ds| + 1 && f.diagnostics[|ds|] == Diagnostic("dismissed", hidden)
                 && forall i :: 0 <= i < |ds| ==>
                      f.diagnostics[i] ==
                      Diagnostic(ds[i].code, ds[i].count - if ds[i].code == "selected" then hidden else 0)
  {
    var keep := Shows(dismissed, including);
    PositionsShape(keep, |page.findings|);
    rows := Positions(keep, |page.findings|);
    HiddenCount(dismissed);
    LoweredShape(page.diagnostics, CountTrue(dismissed));
  }

  // ----- Selecting -----

  /** A selection is accepted exactly if one to twenty different row numbers are typed, the page holds at
      most twenty findings, a target for each, and shows what was displayed, no two roots have the same
      number, and every chosen row is bound to its own finding, whose root is there. */
  lemma SelectableExactly(page: Snapshot, displayed: seq<Finding>, ns: seq<int>)
    ensures Selectable(page, displayed, ns) <==>
            && 1 <= |ns| <= 20 && |page.targets| == |page.findings| <= 20 && displayed == page.findings
            && (forall i :: 0 <= i < |ns| ==> 1 <= ns[i] <= |page.findings|)
            && (forall i, j :: 0 <= i < j < |ns| ==> ns[i] != ns[j])
            && (forall i, j :: 0 <= i < j < |page.roots| ==> page.roots[i].id != page.roots[j].id)
            && (forall n: nat :: n in ns ==> RowStands(page, n - 1))
  {
    if |page.targets| == |page.findings| && ValidNumbers(ns, |page.findings|) {
      BoundExactly(page, ns);
    }
  }

  /** The row is bound to its own finding, and the finding's root is there. */
  ghost predicate RowStands(page: Snapshot, i: int) {
    && 0 <= i < |page.findings| && i < |page.targets| && page.targets[i].findingID == page.findings[i].id
    && exists k :: 0 <= k < |page.roots| && page.roots[k].id == page.findings[i].rootID
  }

  lemma BoundExactly(page: Snapshot, ns: seq<int>)
    requires |page.targets| == |page.findings| && ValidNumbers(ns, |page.findings|)
    ensures Bound(page, ChosenRows(ns, |page.findings|)) <==> forall n: nat :: n in ns ==> RowStands(page, n - 1)
  {
    var idx, keep := ChosenRows(ns, |page.findings|), Numbered(ns);
    PositionsShape(keep, |page.findings|);
    forall i: nat | i < |page.findings| ensures Copyable(page, i) <==> RowStands(page, i) {
      RootOfExactly(page.roots, page.findings[i].rootID);
    }
    if Bound(page, idx) {
      forall n: nat | n in ns ensures RowStands(page, n - 1) {
        assert keep(n - 1) && n - 1 in idx;
        var k :| 0 <= k < |idx| && idx[k] == n - 1;
        assert Copyable(page, idx[k]);
      }
    }
    if forall n: nat :: n in ns ==> RowStands(page, n - 1) {
      forall k | 0 <= k < |idx| ensures Copyable(page, idx[k]) {
        assert idx[k] in idx && keep(idx[k]);
        assert RowStands(page, idx[k] + 1 - 1);
      }
    }
  }

  /** What is selected: the rows under the typed numbers, in page order; every diagnostic counts nothing but
      the "selected" ones, which count these rows; and the page says that it is a selection. */
  lemma SelectionExactly(page: Snapshot, ns: seq<int>) returns (rows: seq<nat>)
    requires Selectable(page, page.findings, ns)
    ensures forall k, l :: 0 <= k < l < |rows| ==> rows[k] < rows[l]
    ensures |rows| == |ns| && forall i: nat :: i in rows <==> i + 1 in ns
    ensures var r := Selection(page, ns);
            && |r.findings| == |r.targets| == |rows|
            && (forall k :: 0 <= k < |rows| ==>
                  rows[k] < |page.findings| && r.findings[k] == page.findings[rows[k]]
                  && r.targets[k] == page.targets[rows[k]])
            && |r.diagnostics| == |page.diagnostics|
            && (forall i :: 0 <= i < |page.diagnostics| ==>
                  r.diagnostics[i] ==
                  Diagnostic(page.diagnostics[i].code, if page.diagnostics[i].code == "selected" then |ns| else 0))
            && r.inventoryID == page.inventoryID && r.nextCursor == "" && r.coverage == "selected_entries_only"
            && r.entryLimit == |ns| == r.entriesExamined
  {
    var keep := Numbered(ns);
    rows := ChosenRows(ns, |page.findings|);
    PositionsShape(keep, |page.findings|);
    ChosenCount(ns, |page.findings|);
    forall i: nat ensures i in rows <==> i + 1 in ns {
      assert keep(i) <==> i + 1 in ns;
    }
  }
}
