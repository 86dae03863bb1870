/** The guided review of saved hash groups: nested prompts over arbitrary input and arbitrary store
    answers, and the safety of what it may save. */
module HashReview {
  import opened Basics
  import opened ReviewInput
  import opened ReviewWorld
  import W = Wrapping
  import P = Paths

  const SAMPLE_LIMIT: int := 20

  predicate Available(m: Member) {
    !m.repeated && !m.conflicting
  }

  // ----- Choosing copies and checking the preview -----

  /** The chosen rows as members, provided that they exist, are available, and have work IDs that
      differ from the keeper's and from each other. */
  method SelectCopies(group: Group, keeper: Member, numbers: seq<nat>) returns (r: Option<seq<Member>>)
    ensures r.Some? <==> SelectedRows(group, keeper, numbers)
    ensures r.Some? <==> GoodRows(group, keeper, numbers)
    ensures r.Some? ==> r.value == Chosen(group, numbers)
  {
    SelectedExactly(group, keeper, numbers);
    if |numbers| < 1 || |numbers| >= SAMPLE_LIMIT {
      return None;
    }
    var copies: seq<Member> := [];
    var seen := {keeper.workID};
    for i := 0 to |numbers|
      invariant forall j :: 0 <= j < i ==> 1 <= numbers[j] <= |group.members|
      invariant |copies| == i && forall j :: 0 <= j < i ==> copies[j] == Chosen(group, numbers)[j]
      invariant Roles(keeper, copies)
      invariant forall id :: id in seen <==> id == keeper.workID || exists j :: 0 <= j < i && copies[j].workID == id
    {
      var number := numbers[i];
      if number < 1 || number > |group.members| {
        return None;
      }
      var member := group.members[number - 1];
      assert Chosen(group, numbers)[i] == member;
      if member.workID in seen || !Available(member) {
        return None;
      }
      seen := seen + {member.workID};
      copies := copies + [member];
    }
    assert copies == Chosen(group, numbers);
    r := Some(copies);
  }

  /** One to nineteen existing rows, neither repeated nor conflicting, with work IDs other than the
      keeper's and each other's. */
  ghost predicate GoodRows(group: Group, keeper: Member, rows: seq<nat>) {
    && 1 <= |rows| <= 19 && (forall i :: 0 <= i < |rows| ==> 1 <= rows[i] <= |group.members|)
    && (forall i :: 0 <= i < |rows| ==>
          var m := group.members[rows[i] - 1];
          !m.repeated && !m.conflicting && m.workID != keeper.workID)
    && (forall i, j :: 0 <= i < j < |rows| ==>
          group.members[rows[i] - 1].workID != group.members[rows[j] - 1].workID)
  }

  /** These are the rows that are selected, and what they stand for. */
  lemma SelectedExactly(group: Group, keeper: Member, rows: seq<nat>)
    ensures SelectedRows(group, keeper, rows) <==> GoodRows(group, keeper, rows)
    ensures GoodRows(group, keeper, rows) ==>
              |Chosen(group, rows)| == |rows| &&
              forall i :: 0 <= i < |rows| ==> Chosen(group, rows)[i] == group.members[rows[i] - 1]
  {
    assert (forall i :: 0 <= i < |rows| ==> 1 <= rows[i] <= |group.members|) ==>
        forall i :: 0 <= i < |rows| ==> Chosen(group, rows)[i] == group.members[rows[i] - 1];
  }

  /** The rows named by the numbers; a number outside the group names nothing. */
  function Chosen(group: Group, numbers: seq<nat>): seq<Member> {
    seq(|numbers|, i requires 0 <= i < |numbers| =>
      if 1 <= numbers[i] <= |group.members| then group.members[numbers[i] - 1] else Member("", "", true, true))
  }

  /** All copies are available and all work IDs, the keeper's included, are distinct. */
  ghost predicate Roles(keeper: Member, copies: seq<Member>) {
    && (forall i :: 0 <= i < |copies| ==> Available(copies[i]) && copies[i].workID != keeper.workID)
    && (forall i, j :: 0 <= i < j < |copies| ==> copies[i].workID != copies[j].workID)
  }

  /** The preview is of exactly this frozen selection. */
  ghost predicate Shows(frozen: Report, group: Group, keeper: Member, copies: seq<Member>, p: Preview) {
    && p.storeID == frozen.storeID && p.selectionID == frozen.selectionID && p.inventoryID == frozen.inventoryID
    && p.logicalBytes == group.logicalBytes && p.sha256 == group.sha256 && p.keeper.member == keeper
    && |p.copies| == |copies| && forall i :: 0 <= i < |copies| ==> p.copies[i].member == copies[i]
  }

  method CheckPreview(frozen: Report, group: Group, keeper: Member, copies: seq<Member>, p: Preview) returns (ok: bool)
    ensures ok == Shows(frozen, group, keeper, copies, p)
  {
    if p.storeID != frozen.storeID || p.selectionID != frozen.selectionID || p.inventoryID != frozen.inventoryID
       || p.logicalBytes != group.logicalBytes || p.sha256 != group.sha256 || p.keeper.member != keeper
       || |p.copies| != |copies| {
      return false;
    }
    for i := 0 to |copies|
      invariant forall j :: 0 <= j < i ==> p.copies[j].member == copies[j]
    {
      if p.copies[i].member != copies[i] {
        return false;
      }
    }
    ok := true;
  }

  // ----- What may be saved -----

  /** What a completed line of at most 4096 bytes, its newline included, says. */
  function Command(u: W.Letters, item: Input): Option<string> {
    if item.Line? && P.ByteLen(item.text) < INPUT_LIMIT then Some(Trimmed(u, item.text)) else None
  }

  function TrimLeft(u: W.Letters, s: string): string {
    if s != "" && u.space(s[0]) then TrimLeft(u, s[1..]) else s
  }

  function TrimRight(u: W.Letters, s: string): string {
    if s != "" && u.space(s[|s| - 1]) then TrimRight(u, s[..|s| - 1]) else s
  }

  function Trimmed(u: W.Letters, s: string): string {
    TrimRight(u, TrimLeft(u, s))
  }

  /** The events of a prompt that was answered: not cancelled, the prompt written, not cancelled,
      a line, and twice more not cancelled. */
  function Exchange(item: Input): seq<Event> {
    [Checked(false), Wrote(Prose, true), Checked(false), Took(item), Checked(false), Checked(false)]
  }

  /** The trace ends with an answered prompt whose line says this. */
  ghost predicate Answered(u: W.Letters, trace: seq<Event>, item: Input, text: string) {
    && |trace| >= 6 && trace[|trace| - 6..] == Exchange(item)
    && Command(u, item) == Some(text)
  }

  /** At this time the user typed these row numbers. */
  ghost predicate Picks(u: W.Letters, trace: seq<Event>, i: nat, rows: seq<nat>) {
    && i < |trace| && trace[i].Took? && Command(u, trace[i].item).Some?
    && ParseNumbers(u, Command(u, trace[i].item).value) == Some(rows)
  }

  predicate Failed(e: Event) {
    e.Wrote? && !e.ok
  }

  ghost predicate Broken(trace: seq<Event>) {
    exists i :: 0 <= i < |trace| && Failed(trace[i])
  }

  /** Nothing is written after a failed write. */
  ghost predicate Guarded(trace: seq<Event>) {
    forall i, j :: 0 <= i < j < |trace| && Failed(trace[i]) ==> !trace[j].Wrote?
  }

  /** An event after which the review may go on: no end of input, unfinished or overlong line, read
      fault, "quit", seen cancellation, missing answer or save. */
  predicate Continues(u: W.Letters, e: Event) {
    match e
    case Loaded(r) => r.Some?
    case Fetched(_, p) => p.Some?
    case Wrote(_, _) => true
    case Checked(c) => !c
    case Took(item) => Command(u, item).Some? && Command(u, item) != Some("quit")
    case Ended => false
    case Save(_, _) => false
  }

  ghost predicate Open(u: W.Letters, trace: seq<Event>) {
    forall i :: 0 <= i < |trace| ==> Continues(u, trace[i])
  }

  /** The report loaded at `at` is still the latest one. */
  ghost predicate Frozen(trace: seq<Event>, at: nat, report: Report) {
    && at < |trace| && trace[at] == Loaded(Some(report))
    && forall i :: at < i < |trace| ==> !trace[i].Loaded?
  }

  function RequestFor(report: Report, keeper: Member, copies: seq<Member>): Request {
    Request(report.selectionID, keeper.workID, seq(|copies|, i requires 0 <= i < |copies| => copies[i].workID))
  }

  /** What the user has chosen from a report, by rows typed at these times: a group, a keeper in it,
      and copies. */
  datatype Choice = Choice(report: Report, groupAt: nat, groupRow: nat, keeperAt: nat, keeperRow: nat,
                           copiesAt: nat, copyRows: seq<nat>)
  {
    ghost predicate HasGroup() { 1 <= groupRow <= |report.groups| }

    ghost function Group(): Group
      requires HasGroup()
    {
      report.groups[groupRow - 1]
    }

    /** What the preview of the choice is asked for by. */
    ghost function Request(): Request
      requires HasKeeper()
    {
      RequestFor(report, Keeper(), Chosen(Group(), copyRows))
    }

    ghost predicate HasKeeper() { HasGroup() && 1 <= keeperRow <= |Group().members| && Available(Keeper()) }

    ghost function Keeper(): Member
      requires HasGroup() && 1 <= keeperRow <= |Group().members|
    {
      Group().members[keeperRow - 1]
    }
  }

  ghost predicate ChoseGroup(u: W.Letters, trace: seq<Event>, c: Choice) {
    Picks(u, trace, c.groupAt, [c.groupRow]) && c.HasGroup()
  }

  ghost predicate ChoseKeeper(u: W.Letters, trace: seq<Event>, c: Choice) {
    ChoseGroup(u, trace, c) && c.groupAt < c.keeperAt && Picks(u, trace, c.keeperAt, [c.keeperRow]) && c.HasKeeper()
  }

  ghost predicate ChoseCopies(u: W.Letters, trace: seq<Event>, c: Choice) {
    && ChoseKeeper(u, trace, c) && c.keeperAt < c.copiesAt && Picks(u, trace, c.copiesAt, c.copyRows)
    && SelectedRows(c.Group(), c.Keeper(), c.copyRows)
  }

  ghost predicate SelectedRows(group: Group, keeper: Member, rows: seq<nat>) {
    && 1 <= |rows| < SAMPLE_LIMIT
    && (forall i :: 0 <= i < |rows| ==> 1 <= rows[i] <= |group.members|)
    && Roles(keeper, Chosen(group, rows))
  }

  /** From `start` on: the preview is fetched, there is no cancellation, all pieces of the preview are
      written without error, and since then nothing else was loaded and nobody typed "back". */
  ghost predicate InView(u: W.Letters, pieces: Preview -> nat, trace: seq<Event>, start: nat, p: Preview) {
    && start + 2 + pieces(p) < |trace|
    && trace[start].Fetched? && trace[start].preview == Some(p) && trace[start + 1] == Checked(false)
    && (forall i :: 0 <= i <= pieces(p) ==> trace[start + 2 + i] == Wrote(Piece(p, i), true))
    && Stays(u, trace, start)
  }

  /** An event that takes a preview out of view. */
  predicate Leaves(u: W.Letters, e: Event) {
    e.Loaded? || e.Fetched? || (e.Took? && Command(u, e.item) == Some("back"))
  }

  ghost predicate Stays(u: W.Letters, trace: seq<Event>, start: nat) {
    forall i :: start < i < |trace| ==> !Leaves(u, trace[i])
  }

  /** The preview in view was asked for, and is of, what the user chose from the report loaded at `at`,
      the latest one. */
  ghost predicate Offered(u: W.Letters, pieces: Preview -> nat, trace: seq<Event>, c: Choice, at: nat, start: nat,
                          p: Preview) {
    && Frozen(trace, at, c.report) && at < c.groupAt && ChoseCopies(u, trace, c) && c.copiesAt < start
    && InView(u, pieces, trace, start, p) && trace[start].request == c.Request()
    && Shows(c.report, c.Group(), c.Keeper(), Chosen(c.Group(), c.copyRows), p)
  }

  /** What must have happened for a save: nothing that ends the review and no failed write; the
      preview of a choice is in view; and the last thing that happened is an answered prompt whose
      line says "save". */
  ghost predicate Warranted(u: W.Letters, pieces: Preview -> nat, before: seq<Event>, p: Preview) {
    && Open(u, before) && !Broken(before)
    && (exists c, at: nat, start: nat :: Offered(u, pieces, before, c, at, start, p))
    && (exists item :: Answered(u, before, item, "save"))
  }

  /** Every save was opted into and warranted by what happened before it. */
  ghost predicate Lawful(u: W.Letters, pieces: Preview -> nat, trace: seq<Event>, saveChoice: bool) {
    forall n :: 0 <= n < |trace| && trace[n].Save? ==> saveChoice && Warranted(u, pieces, trace[..n], trace[n].choice)
  }

  /** A line asks to save a preview in view, and no cancellation is seen in the two checks after it. */
  ghost predicate Asks(u: W.Letters, pieces: Preview -> nat, trace: seq<Event>, i: nat, start: nat, p: Preview) {
    && i + 2 < |trace| && trace[i].Took? && Command(u, trace[i].item) == Some("save")
    && trace[i + 1] == Checked(false) && trace[i + 2] == Checked(false)
    && InView(u, pieces, trace[..i], start, p)
  }

  /** Whoever asks to save the preview in view gets exactly that one saved at once. */
  ghost predicate Honoured(u: W.Letters, pieces: Preview -> nat, trace: seq<Event>) {
    forall i: nat, start: nat, p :: Asks(u, pieces, trace, i, start, p) ==>
      i + 3 < |trace| && trace[i + 3].Save? && trace[i + 3].choice == p
  }
}
