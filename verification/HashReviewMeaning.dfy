/** What a save and what a typed line mean, said directly in events, rows and their flags. */
module HashReviewMeaning {
  import opened Basics
  import opened ReviewInput
  import opened ReviewWorld
  import opened HashReview
  import W = Wrapping
  import P = Paths

  /** What stands before a save. */
  lemma OfferedBefore(u: W.Letters, pieces: Preview -> nat, before: seq<Event>, p: Preview, ok: bool, after: seq<Event>,
                      saveChoice: bool) returns (c: Choice, at: nat, start: nat)
    requires Lawful(u, pieces, before + [Save(p, ok)] + after, saveChoice)
    ensures saveChoice && Offered(u, pieces, before, c, at, start, p)
    ensures exists item :: Answered(u, before, item, "save")
  {
    var trace := before + [Save(p, ok)] + after;
    var n := |before|;
    assert trace[n] == Save(p, ok) && trace[..n] == before;
    assert Warranted(u, pieces, before, p);
    c, at, start :| Offered(u, pieces, before, c, at, start, p);
  }

  /** The keeper and the copies of a preview: rows of this group, neither repeated nor conflicting, all
      with different work IDs, and one to nineteen copies. */
  ghost predicate ClearRows(group: Group, p: Preview) {
    && p.logicalBytes == group.logicalBytes && p.sha256 == group.sha256
    && p.keeper.member in group.members && !p.keeper.member.repeated && !p.keeper.member.conflicting
    && 1 <= |p.copies| <= 19
    && (forall i :: 0 <= i < |p.copies| ==>
          var m := p.copies[i].member;
          m in group.members && !m.repeated && !m.conflicting && m.workID != p.keeper.member.workID)
    && (forall i, j :: 0 <= i < j < |p.copies| ==> p.copies[i].member.workID != p.copies[j].member.workID)
  }

  lemma ShownRows(frozen: Report, group: Group, keeper: Member, rows: seq<nat>, p: Preview)
    requires SelectedRows(group, keeper, rows) && Shows(frozen, group, keeper, Chosen(group, rows), p)
    requires keeper in group.members && Available(keeper)
    ensures ClearRows(group, p)
  {
    SelectedExactly(group, keeper, rows);
    forall i | 0 <= i < |p.copies|
      ensures p.copies[i].member == group.members[rows[i] - 1] && p.copies[i].member in group.members
    {
      assert p.copies[i].member == Chosen(group, rows)[i];
    }
  }

  /** Whatever is saved is what the latest report says about rows of one of its groups: a keeper that is
      neither repeated nor conflicting, and one to nineteen copies that are neither, all with different
      work IDs. */
  lemma SavedRowsAreClear(u: W.Letters, pieces: Preview -> nat, before: seq<Event>, p: Preview, ok: bool,
                          after: seq<Event>, saveChoice: bool) returns (at: nat, report: Report, row: nat)
    requires Lawful(u, pieces, before + [Save(p, ok)] + after, saveChoice)
    ensures at < |before| && before[at] == Loaded(Some(report)) && forall i :: at < i < |before| ==> !before[i].Loaded?
    ensures p.storeID == report.storeID && p.selectionID == report.selectionID && p.inventoryID == report.inventoryID
    ensures row < |report.groups| && ClearRows(report.groups[row], p)
  {
    var c, t, start := OfferedBefore(u, pieces, before, p, ok, after, saveChoice);
    at, report, row := t, c.report, c.groupRow - 1;
    ShownRows(c.report, c.Group(), c.Keeper(), c.copyRows, p);
  }

  /** The preview was fetched for exactly its own work IDs, not cancelled, and written to its last piece
      without error; and since then there was no other preview, no other report and no "back". */
  ghost predicate InSight(u: W.Letters, pieces: Preview -> nat, trace: seq<Event>, start: nat, p: Preview) {
    && start + 2 + pieces(p) < |trace| && trace[start].Fetched? && trace[start].preview == Some(p)
    && AsksFor(trace[start].request, p) && trace[start + 1] == Checked(false)
    && (forall i :: 0 <= i <= pieces(p) ==> trace[start + 2 + i] == Wrote(Piece(p, i), true))
    && (forall i :: start < i < |trace| ==> !trace[i].Loaded? && !trace[i].Fetched?)
    && (forall i :: start < i < |trace| && trace[i].Took? ==> Command(u, trace[i].item) != Some("back"))
  }

  ghost predicate AsksFor(q: Request, p: Preview) {
    && q.selectionID == p.selectionID && q.keeperID == p.keeper.member.workID && |q.copyIDs| == |p.copies|
    && forall i :: 0 <= i < |p.copies| ==> q.copyIDs[i] == p.copies[i].member.workID
  }

  lemma InViewIs(u: W.Letters, pieces: Preview -> nat, trace: seq<Event>, start: nat, p: Preview)
    requires InView(u, pieces, trace, start, p) && AsksFor(trace[start].request, p)
    ensures InSight(u, pieces, trace, start, p)
  {
    forall i | start < i < |trace| ensures !Leaves(u, trace[i]) {
    }
  }

  lemma InSightIs(u: W.Letters, pieces: Preview -> nat, trace: seq<Event>, start: nat, p: Preview)
    requires InSight(u, pieces, trace, start, p)
    ensures InView(u, pieces, trace, start, p)
  {
    forall i | start < i < |trace| ensures !Leaves(u, trace[i]) {
    }
  }

  /** These rows of this report are what the preview is of. */
  ghost predicate RowsOf(report: Report, groupRow: nat, keeperRow: nat, copyRows: seq<nat>, p: Preview) {
    && 1 <= groupRow <= |report.groups|
    && var members := report.groups[groupRow - 1].members;
       && 1 <= keeperRow <= |members| && p.keeper.member == members[keeperRow - 1]
       && |p.copies| == |copyRows|
       && forall i :: 0 <= i < |copyRows| ==>
            1 <= copyRows[i] <= |members| && p.copies[i].member == members[copyRows[i] - 1]
  }

  lemma RowsShown(c: Choice, p: Preview)
    requires c.HasKeeper() && SelectedRows(c.Group(), c.Keeper(), c.copyRows)
    requires Shows(c.report, c.Group(), c.Keeper(), Chosen(c.Group(), c.copyRows), p)
    ensures RowsOf(c.report, c.groupRow, c.keeperRow, c.copyRows, p)
  {
    SelectedExactly(c.Group(), c.Keeper(), c.copyRows);
  }

  /** Whatever is saved was chosen and shown: a report was loaded, then the rows of the group, of the keeper
      and of the copies that the preview is of were typed in this order, then the preview came into sight,
      and then "save" was typed at a prompt between checks none of which saw a cancellation. */
  lemma SavedWasShown(u: W.Letters, pieces: Preview -> nat, before: seq<Event>, p: Preview, ok: bool,
                      after: seq<Event>, saveChoice: bool) returns (c: Choice, at: nat, start: nat, item: Input)
    requires Lawful(u, pieces, before + [Save(p, ok)] + after, saveChoice)
    ensures saveChoice && at < c.groupAt < c.keeperAt < c.copiesAt < start < |before|
    ensures before[at] == Loaded(Some(c.report)) && InSight(u, pieces, before, start, p)
    ensures Typed(u, before, c.groupAt, [c.groupRow]) && Typed(u, before, c.keeperAt, [c.keeperRow])
            && Typed(u, before, c.copiesAt, c.copyRows) && RowsOf(c.report, c.groupRow, c.keeperRow, c.copyRows, p)
    ensures Command(u, item) == Some("save") && |before| >= 6
    ensures before[|before| - 6..] ==
            [Checked(false), Wrote(Prose, true), Checked(false), Took(item), Checked(false), Checked(false)]
  {
    c, at, start := OfferedBefore(u, pieces, before, p, ok, after, saveChoice);
    item :| Answered(u, before, item, "save");
    InViewIs(u, pieces, before, start, p);
    RowsShown(c, p);
  }

  /** And whoever asks for it gets it: "save" typed under a preview in sight, with two checks that see no
      cancellation, is followed by saving exactly this preview. */
  lemma AskedIsSaved(u: W.Letters, pieces: Preview -> nat, before: seq<Event>, item: Input, after: seq<Event>,
                     start: nat, p: Preview)
    requires Honoured(u, pieces, before + [Took(item), Checked(false), Checked(false)] + after)
    requires Command(u, item) == Some("save") && InSight(u, pieces, before, start, p)
    ensures after != [] && after[0].Save? && after[0].choice == p
  {
    var trace := before + [Took(item), Checked(false), Checked(false)] + after;
    var i := |before|;
    InSightIs(u, pieces, before, start, p);
    assert trace[..i] == before && trace[i] == Took(item);
    assert trace[i + 1] == Checked(false) && trace[i + 2] == Checked(false);
    assert Asks(u, pieces, trace, i, start, p);
    assert after != [] ==> trace[i + 3] == after[0];
  }

  /** At this time these row numbers were typed. */
  ghost predicate Typed(u: W.Letters, trace: seq<Event>, i: nat, rows: seq<nat>) {
    && i < |trace| && trace[i].Took? && Command(u, trace[i].item).Some?
    && ParseNumbers(u, Command(u, trace[i].item).value) == Some(rows)
  }

  // ----- Lines -----

  ghost predicate Blank(u: W.Letters, s: string) {
    forall i :: 0 <= i < |s| ==> u.space(s[i])
  }

  /** Neither end is blank. */
  ghost predicate Tight(u: W.Letters, t: string) {
    t != "" ==> !u.space(t[0]) && !u.space(t[|t| - 1])
  }

  lemma {:induction false} TrimmedLeft(u: W.Letters, a: string, t: string)
    requires Blank(u, a) && (t != "" ==> !u.space(t[0]))
    ensures TrimLeft(u, a + t) == t
  {
    if a == "" {
      assert a + t == t;
    } else {
      assert (a + t)[1..] == a[1..] + t;
      TrimmedLeft(u, a[1..], t);
    }
  }

  lemma {:induction false} TrimmedRight(u: W.Letters, t: string, b: string)
    requires Blank(u, b) && Tight(u, t)
    ensures TrimRight(u, t + b) == t
  {
    if b == "" {
      assert t + b == t;
    } else {
      assert (t + b)[..|t + b| - 1] == t + b[..|b| - 1];
      TrimmedRight(u, t, b[..|b| - 1]);
    }
  }

  lemma BlankTrims(u: W.Letters, s: string)
    requires Blank(u, s)
    ensures Trimmed(u, s) == ""
  {
    assert s + "" == s;
    TrimmedLeft(u, s, "");
  }

  /** What a line says: its text without the blanks at both ends, if it is complete and takes at most
      4096 bytes together with its newline. */
  lemma CommandOf(u: W.Letters, a: string, t: string, b: string)
    requires Blank(u, a) && Blank(u, b) && Tight(u, t)
    ensures Command(u, Line(a + t + b)) == if P.ByteLen(a + t + b) + 1 <= 4096 then Some(t) else None
    ensures Command(u, Unfinished(a + t + b)) == None == Command(u, ReadFault)
  {
    if t == "" {
      BlankTrims(u, a + t + b);
    } else {
      assert a + t + b == a + (t + b);
      TrimmedLeft(u, a, t + b);
      TrimmedRight(u, t, b);
    }
  }

  lemma {:induction false} LeftBlanks(u: W.Letters, s: string) returns (a: string)
    ensures Blank(u, a) && s == a + TrimLeft(u, s) && (TrimLeft(u, s) != "" ==> !u.space(TrimLeft(u, s)[0]))
  {
    a := "";
    if s != "" && u.space(s[0]) {
      a := LeftBlanks(u, s[1..]);
      assert s == [s[0]] + s[1..];
      a := [s[0]] + a;
    }
  }

  lemma {:induction false} RightBlanks(u: W.Letters, s: string) returns (b: string)
    ensures Blank(u, b) && s == TrimRight(u, s) + b
    ensures TrimRight(u, s) != "" ==> !u.space(TrimRight(u, s)[|TrimRight(u, s)| - 1])
  {
    b := "";
    if s != "" && u.space(s[|s| - 1]) {
      b := RightBlanks(u, s[..|s| - 1]);
      assert s == s[..|s| - 1] + [s[|s| - 1]];
      b := b + [s[|s| - 1]];
    }
  }

  /** Every text is of the form that `CommandOf` speaks about. */
  lemma EveryLineHasOne(u: W.Letters, s: string) returns (a: string, t: string, b: string)
    ensures s == a + t + b && Blank(u, a) && Blank(u, b) && Tight(u, t)
  {
    a := LeftBlanks(u, s);
    b := RightBlanks(u, TrimLeft(u, s));
    t := TrimRight(u, TrimLeft(u, s));
    assert t != "" ==> t[0] == TrimLeft(u, s)[0];
    assert s == a + t + b;
  }
}
