/** The dialogue of the review as a function of what is typed, when nothing fails: the prompts, where
    each line leads, and what the review comes to. */
module HashReviewDialogue {
  import opened Basics
  import opened ReviewInput
  import opened ReviewWorld
  import opened HashReview
  import W = Wrapping

  datatype Prompt =
    | Groups
    | Keepers(group: Group)
    | Copies(group: Group, keeper: Member)
    | Saving(group: Group, preview: Preview)

  /** A store that does not change: one report, and a preview for each request. */
  datatype Store = Store(report: Report, preview: Request -> Preview)

  /** Nothing fails, nobody cancels, and the store does not change. */
  ghost predicate Stable(env: Env, store: Store) {
    && (forall t: nat :: !env.cancels(t))
    && (forall t: nat :: !env.fails(t))
    && (forall t: nat :: env.reports(t) == Some(store.report))
    && (forall t: nat, q :: env.previews(t, q) == Some(store.preview(q)))
  }

  /** Where a line leads: to a prompt, or to the end of the review with what it has saved. */
  datatype Move = Go(to: Prompt) | Stop(saved: Option<Preview>)

  function AvailableMembers(ms: seq<Member>): nat {
    if ms == [] then 0 else AvailableMembers(ms[..|ms| - 1]) + if Available(ms[|ms| - 1]) then 1 else 0
  }

  /** The single row that a line names, or zero. */
  function OneRow(u: W.Letters, rows: nat, text: string): (row: nat)
    ensures row <= rows
  {
    var numbers := ParseNumbers(u, text);
    if numbers.Some? && |numbers.value| == 1 && numbers.value[0] <= rows then numbers.value[0] else 0
  }

  function MoveGroups(u: W.Letters, report: Report, text: string): Move {
    var row := OneRow(u, |report.groups|, text);
    if text == "refresh" || row == 0 || AvailableMembers(report.groups[row - 1].members) < 2 then Go(Groups)
    else Go(Keepers(report.groups[row - 1]))
  }

  function MoveKeepers(u: W.Letters, group: Group, text: string): Move {
    var row := OneRow(u, |group.members|, text);
    if text == "back" then Go(Groups)
    else if row == 0 || !Available(group.members[row - 1]) then Go(Keepers(group))
    else Go(Copies(group, group.members[row - 1]))
  }

  ghost function MoveCopies(u: W.Letters, store: Store, saveChoice: bool, group: Group, keeper: Member,
                            text: string): Move {
    var rows := ParseNumbers(u, text);
    if text == "back" then Go(Keepers(group))
    else if rows.None? || !SelectedRows(group, keeper, rows.value) then Go(Copies(group, keeper))
    else Previewed(store, saveChoice, group, keeper, Chosen(group, rows.value))
  }

  /** What becomes of a selection: its preview is offered for saving, unless it does not match or saving
      was not opted into. */
  ghost function Previewed(store: Store, saveChoice: bool, group: Group, keeper: Member, copies: seq<Member>): Move {
    var p := store.preview(RequestFor(store.report, keeper, copies));
    if saveChoice && Shows(store.report, group, keeper, copies, p) then Go(Saving(group, p)) else Stop(None)
  }

  function MoveSaving(group: Group, preview: Preview, text: string): Move {
    if text == "save" then Stop(Some(preview))
    else if text == "back" then Go(Keepers(group))
    else Go(Saving(group, preview))
  }

  ghost function MoveOn(u: W.Letters, store: Store, saveChoice: bool, at: Prompt, text: string): Move {
    match at
    case Groups => MoveGroups(u, store.report, text)
    case Keepers(group) => MoveKeepers(u, group, text)
    case Copies(group, keeper) => MoveCopies(u, store, saveChoice, group, keeper, text)
    case Saving(group, preview) => MoveSaving(group, preview, text)
  }

  /** The input is at an end, or its next item ends the review. */
  predicate Ending(u: W.Letters, items: seq<Input>) {
    items == [] || Command(u, items[0]).None? || Command(u, items[0]) == Some("quit")
  }

  /** What the review comes to from a prompt on. */
  ghost function Outcome(u: W.Letters, store: Store, saveChoice: bool, at: Prompt, items: seq<Input>): Option<Preview>
    decreases |items|
  {
    if Ending(u, items) then None else
      match MoveOn(u, store, saveChoice, at, Command(u, items[0]).value)
      case Go(to) => Outcome(u, store, saveChoice, to, items[1..])
      case Stop(saved) => saved
  }

  type Fate = (Prompt, seq<Input>) -> Option<Preview>

  ghost function Fates(u: W.Letters, store: Store, saveChoice: bool): Fate {
    (at, items) => Outcome(u, store, saveChoice, at, items)
  }

  /** What a move comes to, with the input after it. */
  function After(fate: Fate, move: Move, rest: seq<Input>): Option<Preview> {
    match move case Go(to) => fate(to, rest) case Stop(saved) => saved
  }

  /** An item and the input after it. */
  function Ahead(item: Input, rest: seq<Input>): seq<Input> {
    [item] + rest
  }

  predicate Carries(u: W.Letters, item: Input) {
    Command(u, item).Some? && Command(u, item) != Some("quit")
  }

  /** Where an instance of the rules below is wanted. */
  predicate At(at: Prompt, items: seq<Input>) { true }
  predicate Picked(group: Group, keeper: Member, copies: seq<Member>) { true }

  type Offer = (Group, Member, seq<Member>) -> Move

  ghost function Offers(store: Store, saveChoice: bool): Offer {
    (group, keeper, copies) => Previewed(store, saveChoice, group, keeper, copies)
  }

  /** How what the review comes to depends on the next item, and where a selection leads. */
  ghost predicate Governs(fate: Fate, offer: Offer, u: W.Letters, store: Store, saveChoice: bool) {
    && (forall g, k, cs {:trigger Picked(g, k, cs)} :: offer(g, k, cs) == Previewed(store, saveChoice, g, k, cs))
    && (forall at, items {:trigger At(at, items)} :: Ending(u, items) ==> fate(at, items) == None)
    && (forall at, items {:trigger At(at, items)} :: !Ending(u, items) ==>
          fate(at, items) == After(fate, MoveOn(u, store, saveChoice, at, Command(u, items[0]).value), items[1..]))
  }

  lemma FateMoves(u: W.Letters, store: Store, saveChoice: bool, at: Prompt, item: Input, rest: seq<Input>)
    requires Carries(u, item)
    ensures var fate := Fates(u, store, saveChoice);
            fate(at, Ahead(item, rest)) == After(fate, MoveOn(u, store, saveChoice, at, Command(u, item).value), rest)
  {
    assert Ahead(item, rest)[1..] == rest;
  }

  lemma FatesGovern(u: W.Letters, store: Store, saveChoice: bool)
    ensures Governs(Fates(u, store, saveChoice), Offers(store, saveChoice), u, store, saveChoice)
  {
    var fate, offer := Fates(u, store, saveChoice), Offers(store, saveChoice);
    forall g, k, cs ensures offer(g, k, cs) == Previewed(store, saveChoice, g, k, cs) {
    }
    forall at, items | Ending(u, items) ensures fate(at, items) == None {
    }
    forall at, items | !Ending(u, items)
      ensures fate(at, items) == After(fate, MoveOn(u, store, saveChoice, at, Command(u, items[0]).value), items[1..])
    {
    }
  }

  /** The line names these rows, and none of the words that have a meaning of their own. */
  ghost predicate Says(u: W.Letters, item: Input, rows: seq<nat>) {
    var text := Command(u, item);
    && text.Some? && text.value != "quit" && text.value != "back" && text.value != "refresh"
    && ParseNumbers(u, text.value) == Some(rows)
  }

  // ----- Where lines lead -----

  /** "back" leaves each prompt for the one that led to it. */
  lemma BackLeads(u: W.Letters, store: Store, saveChoice: bool, group: Group, keeper: Member, p: Preview, item: Input,
                  rest: seq<Input>)
    requires Command(u, item) == Some("back")
    ensures var fate := Fates(u, store, saveChoice);
            && fate(Keepers(group), Ahead(item, rest)) == fate(Groups, rest)
            && fate(Copies(group, keeper), Ahead(item, rest)) == fate(Keepers(group), rest)
            && fate(Saving(group, p), Ahead(item, rest)) == fate(Keepers(group), rest)
  {
    FateMoves(u, store, saveChoice, Keepers(group), item, rest);
    FateMoves(u, store, saveChoice, Copies(group, keeper), item, rest);
    FateMoves(u, store, saveChoice, Saving(group, p), item, rest);
  }

  /** Nothing comes of input that ends here, is not a completed line of bounded length, or says "quit". */
  lemma NothingMore(u: W.Letters, store: Store, saveChoice: bool, at: Prompt, items: seq<Input>)
    requires items == [] || Command(u, items[0]).None? || Command(u, items[0]) == Some("quit")
    ensures Fates(u, store, saveChoice)(at, items) == None
  {
  }

  /** What the line names cannot be chosen at this prompt: no rows, or several where one is asked for, or a
      row that is not there; a group with fewer than two members that are neither repeated nor conflicting;
      a keeper that is one of them; rows that are no good as copies. */
  ghost predicate Idle(store: Store, at: Prompt, numbers: Option<seq<nat>>) {
    numbers.Some? ==>
      var ns := numbers.value;
      match at
      case Groups =>
        |ns| != 1 || ns[0] < 1 || ns[0] > |store.report.groups| ||
        |ClearPositions(store.report.groups[ns[0] - 1].members)| < 2
      case Keepers(group) =>
        |ns| != 1 || ns[0] < 1 || ns[0] > |group.members| ||
        group.members[ns[0] - 1].repeated || group.members[ns[0] - 1].conflicting
      case Copies(group, keeper) => !GoodRows(group, keeper, ns)
      case Saving(_, _) => true
  }

  /** Such a line, if it says neither "quit", "back" nor "save", makes no difference. */
  lemma IdleLine(u: W.Letters, store: Store, saveChoice: bool, at: Prompt, item: Input, rest: seq<Input>)
    requires Command(u, item).Some? && Command(u, item).value !in {"quit", "back", "save"}
    requires Idle(store, at, ParseNumbers(u, Command(u, item).value))
    ensures var fate := Fates(u, store, saveChoice); fate(at, Ahead(item, rest)) == fate(at, rest)
  {
    var numbers := ParseNumbers(u, Command(u, item).value);
    FateMoves(u, store, saveChoice, at, item, rest);
    if numbers.Some? {
      ParseNumbersExact(u, Command(u, item).value, numbers.value);
      match at
      case Groups =>
        if |numbers.value| == 1 && 1 <= numbers.value[0] <= |store.report.groups| {
          AvailableMembersAre(store.report.groups[numbers.value[0] - 1].members);
        }
      case Keepers(_) =>
      case Copies(group, keeper) =>
        SelectedExactly(group, keeper, numbers.value);
      case Saving(_, _) =>
    }
  }

  /** Good copies whose preview says something else than the report, or without saving opted into, end the
      review with nothing saved. */
  lemma PreviewEnds(u: W.Letters, store: Store, saveChoice: bool, group: Group, keeper: Member, c: Input,
                    rest: seq<Input>, rows: seq<nat>, ids: seq<string>)
    requires Says(u, c, rows) && GoodRows(group, keeper, rows)
    requires |ids| == |rows| && forall i :: 0 <= i < |rows| ==> ids[i] == group.members[rows[i] - 1].workID
    requires !saveChoice || !Matches(store.report, group, keeper, rows,
                                     store.preview(Request(store.report.selectionID, keeper.workID, ids)))
    ensures Fates(u, store, saveChoice)(Copies(group, keeper), Ahead(c, rest)) == None
  {
    SelectedExactly(group, keeper, rows);
    FateMoves(u, store, saveChoice, Copies(group, keeper), c, rest);
    assert RequestFor(store.report, keeper, Chosen(group, rows)).copyIDs == ids;
  }

  /** The number of members that are neither repeated nor conflicting. */
  lemma {:induction false} AvailableMembersAre(ms: seq<Member>)
    ensures AvailableMembers(ms) == |ClearPositions(ms)|
  {
    if ms == [] {
      assert ClearPositions(ms) == {};
    } else {
      var n := |ms| - 1;
      AvailableMembersAre(ms[..n]);
      assert ClearPositions(ms) == ClearPositions(ms[..n]) +
          if !ms[n].repeated && !ms[n].conflicting then {n} else {};
    }
  }

  ghost function ClearPositions(ms: seq<Member>): set<int> {
    set i | 0 <= i < |ms| && !ms[i].repeated && !ms[i].conflicting
  }

  /** Two such members are enough. */
  lemma TwoAreAvailable(ms: seq<Member>, i: nat, j: nat)
    requires i < |ms| && j < |ms| && i != j
    requires !ms[i].repeated && !ms[i].conflicting && !ms[j].repeated && !ms[j].conflicting
    ensures AvailableMembers(ms) >= 2
  {
    AvailableMembersAre(ms);
    var two := {i as int, j as int};
    assert two <= ClearPositions(ms);
    assert ClearPositions(ms) == two + (ClearPositions(ms) - two);
  }

  /** From the copy prompt: selectable copies with a preview that shows them, and "save". */
  lemma CopiesToSave(u: W.Letters, store: Store, group: Group, keeper: Member, c: Input, s: Input, more: seq<Input>,
                     rows: seq<nat>, p: Preview)
    requires Says(u, c, rows) && SelectedRows(group, keeper, rows) && Command(u, s) == Some("save")
    requires Previewed(store, true, group, keeper, Chosen(group, rows)) == Go(Saving(group, p))
    ensures Fates(u, store, true)(Copies(group, keeper), [c] + ([s] + more)) == Some(p)
  {
    FateMoves(u, store, true, Saving(group, p), s, more);
    FateMoves(u, store, true, Copies(group, keeper), c, [s] + more);
  }

  /** From the keeper prompt: an available keeper. */
  lemma KeepersToCopies(u: W.Letters, store: Store, group: Group, k: Input, rest: seq<Input>, row: nat)
    requires Says(u, k, [row]) && 1 <= row <= |group.members| && Available(group.members[row - 1])
    ensures var fate := Fates(u, store, true);
            fate(Keepers(group), [k] + rest) == fate(Copies(group, group.members[row - 1]), rest)
  {
    FateMoves(u, store, true, Keepers(group), k, rest);
  }

  /** From the group prompt: a group with enough members and an available keeper. */
  lemma GroupsToCopies(u: W.Letters, store: Store, g: Input, k: Input, rest: seq<Input>, groupRow: nat, keeperRow: nat)
    requires Says(u, g, [groupRow]) && 1 <= groupRow <= |store.report.groups|
    requires var group := store.report.groups[groupRow - 1];
             && AvailableMembers(group.members) >= 2 && Says(u, k, [keeperRow]) && 1 <= keeperRow <= |group.members|
             && Available(group.members[keeperRow - 1])
    ensures var fate, group := Fates(u, store, true), store.report.groups[groupRow - 1];
            fate(Groups, [g] + ([k] + rest)) == fate(Copies(group, group.members[keeperRow - 1]), rest)
  {
    KeepersToCopies(u, store, store.report.groups[groupRow - 1], k, rest, keeperRow);
    FateMoves(u, store, true, Groups, g, [k] + rest);
  }

  /** The preview says of these rows what the report says. */
  ghost predicate Matches(report: Report, group: Group, keeper: Member, rows: seq<nat>, p: Preview)
    requires forall i :: 0 <= i < |rows| ==> 1 <= rows[i] <= |group.members|
  {
    && p.storeID == report.storeID && p.selectionID == report.selectionID && p.inventoryID == report.inventoryID
    && p.logicalBytes == group.logicalBytes && p.sha256 == group.sha256 && p.keeper.member == keeper
    && |p.copies| == |rows| && forall i :: 0 <= i < |rows| ==> p.copies[i].member == group.members[rows[i] - 1]
  }

  lemma GoodRowsLead(store: Store, group: Group, keeper: Member, rows: seq<nat>, ids: seq<string>, p: Preview)
    requires GoodRows(group, keeper, rows) && Matches(store.report, group, keeper, rows, p)
    requires |ids| == |rows| && forall i :: 0 <= i < |rows| ==> ids[i] == group.members[rows[i] - 1].workID
    requires store.preview(Request(store.report.selectionID, keeper.workID, ids)) == p
    ensures SelectedRows(group, keeper, rows)
    ensures Previewed(store, true, group, keeper, Chosen(group, rows)) == Go(Saving(group, p))
    ensures Previewed(store, false, group, keeper, Chosen(group, rows)) == Stop(None)
  {
    SelectedExactly(group, keeper, rows);
    assert RequestFor(store.report, keeper, Chosen(group, rows)).copyIDs == ids;
  }

  /** A straight way to a save: a group, a keeper in it that is neither repeated nor conflicting, good
      rows for its copies, a preview of these work IDs that says what the report says, and "save". */
  lemma StraightToSave(u: W.Letters, store: Store, g: Input, k: Input, c: Input, s: Input, more: seq<Input>,
                       groupRow: nat, keeperRow: nat, rows: seq<nat>, ids: seq<string>, p: Preview)
    requires Says(u, g, [groupRow]) && 1 <= groupRow <= |store.report.groups|
    requires var group := store.report.groups[groupRow - 1];
             && Says(u, k, [keeperRow]) && 1 <= keeperRow <= |group.members| && Says(u, c, rows)
             && !group.members[keeperRow - 1].repeated && !group.members[keeperRow - 1].conflicting
             && GoodRows(group, group.members[keeperRow - 1], rows)
             && Matches(store.report, group, group.members[keeperRow - 1], rows, p)
             && |ids| == |rows| && (forall i :: 0 <= i < |rows| ==> ids[i] == group.members[rows[i] - 1].workID)
             && store.preview(Request(store.report.selectionID, group.members[keeperRow - 1].workID, ids)) == p
    requires Command(u, s) == Some("save")
    ensures Outcome(u, store, true, Groups, [g] + ([k] + ([c] + ([s] + more)))) == Some(p)
  {
    var group := store.report.groups[groupRow - 1];
    TwoAreAvailable(group.members, keeperRow - 1, rows[0] - 1);
    GoodRowsLead(store, group, group.members[keeperRow - 1], rows, ids, p);
    GroupsToCopies(u, store, g, k, [c] + ([s] + more), groupRow, keeperRow);
    CopiesToSave(u, store, group, group.members[keeperRow - 1], c, s, more, rows, p);
  }
}
