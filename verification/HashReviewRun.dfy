/** The guided review as it runs: the guarded output, the reader of responses, and the nested prompts. */
module HashReviewRun {
  import opened Basics
  import opened ReviewInput
  import opened ReviewWorld
  import opened HashReview
  import opened HashReviewMonitor
  import opened HashReviewDialogue
  import W = Wrapping
  import P = Paths

  datatype Response = Typed(text: string) | Finished | Unread

  datatype Next = Again | Back | Over

  /** The same report is frozen, and no other preview was fetched. */
  predicate Same(m: Monitor, m': Monitor) {
    m'.report == m.report && m'.at == m.at && m'.since == m.since
  }

  /** One review. `err` is the guarded output's sticky error. */
  class Session {
    const world: World
    const u: W.Letters
    const pieces: Preview -> nat
    const saveChoice: bool
    var err: bool
    ghost const store: Store
    ghost const fate: Fate
    ghost const offer: Offer

    constructor (world: World, u: W.Letters, pieces: Preview -> nat, saveChoice: bool, ghost store: Store)
      requires world.Valid() && world.trace == []
      ensures Valid() && M() == START && Judged()
      ensures this.world == world && this.u == u && this.pieces == pieces && this.saveChoice == saveChoice
      ensures this.store == store
    {
      this.world, this.u, this.pieces, this.saveChoice, err := world, u, pieces, saveChoice, false;
      this.store, fate, offer := store, Fates(u, store, saveChoice), Offers(store, saveChoice);
    }

    /** What the dialogue comes to is what the store and the input make of it. */
    ghost predicate Judged() {
      fate == Fates(u, store, saveChoice) && offer == Offers(store, saveChoice)
    }

    /** Nothing fails, nobody cancels, and the store does not change. */
    ghost predicate Calm() {
      Stable(world.env, store) && Governs(fate, offer, u, store, saveChoice)
    }

    /** What the dialogue comes to from a prompt on, with the input that is left. */
    ghost function FateAt(at: Prompt): Option<Preview>
      reads world
    {
      fate(at, world.Rest())
    }

    /** In calm surroundings: what the dialogue comes to has not changed, or it has come to it. */
    ghost predicate Follows(next: Next, was: Option<Preview>, here: Prompt, back: Prompt)
      reads this, world
    {
      Calm() ==> was == match next case Again => FateAt(here) case Back => FateAt(back) case Over => M().saved
    }

    /** What the monitor says now. */
    ghost function M(): Monitor
      reads this, world
    {
      Watch(u, pieces, world.trace)
    }

    ghost predicate Valid()
      reads this, world
    {
      && world.Valid() && M().guarded && M().honoured && err == M().broken
      && Sound(u, pieces, world.trace, saveChoice) && Steady()
    }

    /** Nothing is saved while the review goes on; in calm surroundings no write has failed and the
        report is the store's. */
    ghost predicate Steady()
      reads this, world
    {
      && (M().live ==> M().saved == None)
      && (Calm() ==> !err && (M().report.Some? ==> M().report == Some(store.report)))
    }

    /** The review may go on, and no one has asked to save. */
    ghost predicate Going()
      reads this, world
    {
      Valid() && M().live && M().demand == NoDemand
    }

    /** No save is due. */
    ghost predicate Settled()
      reads this, world
    {
      Valid() && !M().demand.Due?
    }

    // ----- Single events -----

    method Cancelled() returns (c: bool)
      requires Settled()
      modifies this, world
      ensures Valid() && err == old(err) && world.Left() == old(world.Left())
      ensures world.trace == old(world.trace) + [Checked(c)]
      ensures M().live == (old(M().live) && !c)
      ensures c || old(M().demand) == NoDemand ==> M().demand == NoDemand
      ensures !old(M().demand.Half?) ==> Settled()
      ensures (Calm() ==> !c) && M().saved == old(M().saved)
    {
      c := world.Cancelled();
      WatchAppend(u, pieces, old(world.trace), Checked(c));
      SoundAppend(u, pieces, old(world.trace), saveChoice, Checked(c));
    }

    /** Writing through the guarded output: once a write has failed, nothing more is attempted. */
    method Write(text: Text)
      requires Settled()
      modifies this, world
      ensures Valid() && world.Left() == old(world.Left()) && (old(err) ==> err)
      ensures world.trace == if old(err) then old(world.trace) else old(world.trace) + [Wrote(text, !err)]
      ensures M().saved == old(M().saved)
    {
      if err {
        return;
      }
      var ok := world.Write(text);
      WatchAppend(u, pieces, old(world.trace), Wrote(text, ok));
      SoundAppend(u, pieces, old(world.trace), saveChoice, Wrote(text, ok));
      err := !ok;
    }

    /** Anything but a preview. */
    method Print()
      requires Settled()
      modifies this, world
      ensures Settled() && world.Left() == old(world.Left()) && (old(err) ==> err)
      ensures world.trace == if old(err) then old(world.trace) else old(world.trace) + [Wrote(Prose, !err)]
      ensures M().live == old(M().live) && (old(M().demand) == NoDemand ==> M().demand == NoDemand)
      ensures Same(old(M()), M()) && (old(M().stage.Viewing?) ==> M().stage == old(M().stage))
      ensures (M().stage.Viewing? ==> old(M().stage.Viewing?)) && M().saved == old(M().saved)
    {
      Write(Prose);
      if !old(err) {
        WatchAppend(u, pieces, old(world.trace), Wrote(Prose, !err));
      }
    }

    method Take() returns (r: Option<Input>)
      requires Going()
      modifies this, world
      ensures Settled() && err == old(err) && !M().demand.Half?
      ensures r.Some? ==> world.trace == old(world.trace) + [Took(r.value)] && world.Left() == old(world.Left()) - 1
      ensures r.None? || Command(u, r.value).None? ==> !M().live && M().demand == NoDemand
      ensures M().saved == old(M().saved)
      ensures if r.Some? then old(world.Rest()) == [r.value] + world.Rest() else old(world.Rest()) == []
    {
      r := world.Take();
      var e := if r.Some? then Took(r.value) else Ended;
      WatchAppend(u, pieces, old(world.trace), e);
      SoundAppend(u, pieces, old(world.trace), saveChoice, e);
    }

    // ----- Responses -----

    /** Only a completed line of at most 4096 bytes is a command, and only if there is no cancellation
        before and after it. */
    method ReadLine() returns (r: Response, ghost item: Input)
      requires Going()
      modifies this, world
      ensures Settled() && err == old(err)
      ensures r.Typed? ==> Command(u, item) == Some(r.text) && world.Left() == old(world.Left()) - 1
                           && world.trace == old(world.trace) + [Checked(false)] + [Took(item)] + [Checked(false)]
      ensures !r.Typed? ==> !M().live && M().demand == NoDemand
      ensures M().saved == old(M().saved)
      ensures r.Typed? ==> old(world.Rest()) == [item] + world.Rest()
      ensures Calm() && !r.Typed? ==> Ending(u, old(world.Rest()))
    {
      item := ReadFault;
      var c := Cancelled();
      if c {
        return Unread, item;
      }
      var taken := Take();
      if taken.None? {
        return Finished, item;
      }
      var line := taken.value;
      item := line;
      if line.ReadFault? || P.ByteLen(line.text) + (if line.Line? then 1 else 0) > INPUT_LIMIT {
        return Unread, item;
      }
      if line.Unfinished? {
        return Finished, item;
      }
      c := Cancelled();
      if c {
        return Unread, item;
      }
      r := Typed(Trimmed(u, line.text));
    }

    /** The prompt, unless the output has failed or a cancellation is seen. */
    method Prompt() returns (ok: bool)
      requires Going()
      modifies this, world
      ensures Valid() && world.Left() == old(world.Left()) && M().demand == NoDemand
      ensures ok ==> Going() && !old(err) && !err
                     && world.trace == old(world.trace) + [Checked(false)] + [Wrote(Prose, true)]
      ensures !ok ==> err || !M().live
      ensures (Calm() ==> ok) && M().saved == old(M().saved)
    {
      if err {
        return false;
      }
      var c := Cancelled();
      if c {
        return false;
      }
      Print();
      ok := !err;
    }

    /** One prompt and its response: typed exactly when the prompt was written, a command was read, and
        no check before or after saw a cancellation. */
    method Ask() returns (r: Response, ghost item: Input)
      requires Going()
      modifies this, world
      ensures Valid()
      ensures r.Typed? ==> !err && Command(u, item) == Some(r.text) && world.Left() == old(world.Left()) - 1
                           && world.trace == old(world.trace) + Exchange(item) && M() == AfterExchange(old(M()), r.text)
      ensures !r.Typed? ==> (err || !M().live) && M().demand == NoDemand
      ensures M().saved == old(M().saved) && (r.Typed? ==> old(world.Rest()) == [item] + world.Rest())
      ensures Calm() && !r.Typed? ==> Ending(u, old(world.Rest()))
    {
      var ok := Prompt();
      if !ok {
        return Unread, ReadFault;
      }
      r, item := ReadLine();
      var c := Cancelled();
      if c {
        return Unread, item;
      }
      if r.Typed? {
        ExchangeSpelled(old(world.trace), item);
        ExchangeWatched(u, pieces, old(world.trace), item, r.text);
      }
    }

    /** What is printed when the review ends by itself. */
    method End()
      requires Settled() && M().demand == NoDemand
      modifies this, world
      ensures Settled() && (old(err) ==> err) && (M().live ==> old(M().live)) && M().saved == old(M().saved)
    {
      Print();
      var c := Cancelled();
    }

    /** A prompt whose response does not end the review. */
    method Respond() returns (r: Option<string>, ghost item: Input)
      requires Going()
      modifies this, world
      ensures Valid()
      ensures r.None? ==> Settled() && (err || !M().live)
      ensures r.Some? ==> !err && Command(u, item) == r && r.value != "quit" && world.Left() == old(world.Left()) - 1
                          && world.trace == old(world.trace) + Exchange(item) && M() == AfterExchange(old(M()), r.value)
      ensures r.Some? ==> Same(old(M()), M()) && old(world.trace) <= world.trace
      ensures M().saved == old(M().saved) && (r.Some? ==> old(world.Rest()) == Ahead(item, world.Rest()))
      ensures Calm() && r.None? ==> Ending(u, old(world.Rest()))
    {
      var a;
      a, item := Ask();
      if a.Typed? && a.text != "quit" {
        return Some(a.text), item;
      }
      if a != Unread {
        End();
      }
      r := None;
    }

    // ----- Where a line leads -----

    lemma FateOver(at: Prompt, items: seq<Input>)
      requires Calm() && Ending(u, items)
      ensures fate(at, items) == None
    {
      assert HashReviewDialogue.At(at, items);
    }

    lemma FateLeads(at: Prompt, item: Input, rest: seq<Input>)
      requires Calm() && Carries(u, item)
      ensures fate(at, Ahead(item, rest)) == After(fate, MoveOn(u, store, saveChoice, at, Command(u, item).value), rest)
    {
      var items := Ahead(item, rest);
      assert items[0] == item && items[1..] == rest && !Ending(u, items);
      assert HashReviewDialogue.At(at, items);
    }

    lemma SavingLeads(group: Group, p: Preview, item: Input, rest: seq<Input>, text: string)
      requires Carries(u, item) && Command(u, item) == Some(text)
      ensures Calm() ==> fate(Saving(group, p), Ahead(item, rest)) ==
                         if text == "save" then Some(p)
                         else fate(if text == "back" then Keepers(group) else Saving(group, p), rest)
    {
      if Calm() {
        FateLeads(Saving(group, p), item, rest);
      }
    }

    /** The prompt that choosing a keeper leads to. */
    function ToCopies(group: Group, row: nat): Prompt
      requires row <= |group.members|
    {
      if row == 0 || !Available(group.members[row - 1]) then Keepers(group) else Copies(group, group.members[row - 1])
    }

    /** How the answer to a prompt relates to the input before it. */
    ghost predicate Asked(items: seq<Input>, next: Next, item: Input, rest: seq<Input>, saved: Option<Preview>,
                          leave: string) {
      if next == Over then saved == None && (Calm() ==> Ending(u, items))
      else items == Ahead(item, rest) && Carries(u, item) && (next == Back <==> Command(u, item) == Some(leave))
    }

    /** What the answer to the copy prompt names. */
    ghost predicate Selected(group: Group, keeper: Member, next: Next, copies: Option<seq<Member>>, rows: seq<nat>,
                             item: Input) {
      && (copies.Some? ==> next == Again)
      && (next == Again ==>
            && Command(u, item).Some?
            && var typed := ParseNumbers(u, Command(u, item).value);
               if copies.Some?
               then typed == Some(rows) && SelectedRows(group, keeper, rows) && copies.value == Chosen(group, rows)
               else typed.None? || !SelectedRows(group, keeper, typed.value))
    }

    lemma CopiesAsked(group: Group, keeper: Member, items: seq<Input>, next: Next, copies: Option<seq<Member>>,
                      rows: seq<nat>, item: Input, rest: seq<Input>, saved: Option<Preview>)
      requires Asked(items, next, item, rest, saved, "back") && Selected(group, keeper, next, copies, rows, item)
      ensures Calm() ==> fate(Copies(group, keeper), items) ==
                         match next
                         case Over => saved
                         case Back => fate(Keepers(group), rest)
                         case Again => if copies.None? then fate(Copies(group, keeper), rest)
                                       else After(fate, offer(group, keeper, copies.value), rest)
    {
      if Calm() && next == Over {
        FateOver(Copies(group, keeper), items);
      } else if Calm() {
        assert copies.Some? ==> Picked(group, keeper, copies.value);
        FateLeads(Copies(group, keeper), item, rest);
      }
    }

    lemma KeepersAsked(group: Group, items: seq<Input>, next: Next, row: nat, item: Input, rest: seq<Input>,
                       saved: Option<Preview>)
      requires row <= |group.members| && Asked(items, next, item, rest, saved, "back")
      requires if next == Again then row == OneRow(u, |group.members|, Command(u, item).value) else row == 0
      ensures Calm() ==> fate(Keepers(group), items) ==
                         match next
                         case Over => saved
                         case Back => fate(Groups, rest)
                         case Again => fate(ToCopies(group, row), rest)
    {
      if Calm() && next == Over {
        FateOver(Keepers(group), items);
      } else if Calm() {
        FateLeads(Keepers(group), item, rest);
      }
    }

    /** What a selection comes to. */
    ghost function FateOf(group: Group, keeper: Member, copies: seq<Member>): Option<Preview>
      reads world
    {
      After(fate, offer(group, keeper, copies), world.Rest())
    }

    /** The prompt that choosing a group leads to. */
    function Entered(group: Group): Prompt {
      if AvailableMembers(group.members) < 2 then Groups else Keepers(group)
    }

    lemma GroupsAsked(frozen: Report, items: seq<Input>, next: Next, row: nat, item: Input, rest: seq<Input>,
                      saved: Option<Preview>)
      requires row <= |frozen.groups| && (Calm() ==> frozen == store.report)
      requires Asked(items, next, item, rest, saved, "refresh")
      requires if next == Again then row == OneRow(u, |frozen.groups|, Command(u, item).value) else row == 0
      ensures Calm() ==> fate(Groups, items) ==
                         match next
                         case Over => saved
                         case Back => fate(Groups, rest)
                         case Again => fate(if row == 0 then Groups else Entered(frozen.groups[row - 1]), rest)
    {
      if Calm() && next == Over {
        FateOver(Groups, items);
      } else if Calm() {
        FateLeads(Groups, item, rest);
      }
    }

    /** A report without groups leaves nothing to choose. */
    lemma {:induction false} NoGroupsNoFate(items: seq<Input>)
      ensures Calm() && store.report.groups == [] ==> fate(Groups, items) == None
    {
      if Calm() && store.report.groups == [] {
        if Ending(u, items) {
          FateOver(Groups, items);
        } else {
          assert items == Ahead(items[0], items[1..]);
          FateLeads(Groups, items[0], items[1..]);
          NoGroupsNoFate(items[1..]);
        }
      }
    }

    // ----- The prompts -----

    /** Asks the store to save. */
    method AskToSave(p: Preview) returns (ok: bool)
      requires Valid() && saveChoice && Granted(u, pieces, world.trace, p) && M().demand == Due(p)
      modifies this, world
      ensures Settled() && M().demand == NoDemand && !M().live && M().saved == Some(p)
    {
      ok := world.SaveChoice(p);
      WatchAppend(u, pieces, old(world.trace), Save(p, ok));
      SoundAppend(u, pieces, old(world.trace), saveChoice, Save(p, ok));
    }

    /** Asks the store to save, and reports what came of it. */
    method SaveNow(p: Preview)
      requires Valid() && saveChoice && Granted(u, pieces, world.trace, p) && M().demand == Due(p)
      modifies this, world
      ensures Settled() && !M().live && M().saved == Some(p)
    {
      var ok := AskToSave(p);
      if ok {
        Report();
      }
    }

    /** What is printed once a choice is saved. */
    method Report()
      requires Settled() && M().demand == NoDemand
      modifies this, world
      ensures Settled() && (M().live ==> old(M().live)) && M().saved == old(M().saved)
    {
      Print();
      Print();
      if !err {
        var cancelled := Cancelled();
      }
    }

    /** The review goes on from an earlier state: the same report is frozen and input was used up. */
    twostate predicate Onward()
      reads this, world
    {
      Going() && Same(old(M()), M()) && old(world.trace) <= world.trace && world.Left() < old(world.Left())
    }

    /** The preview of a choice, made by the end of `seen`, is in view. */
    ghost predicate Offering(p: Preview, c: Choice, seen: seq<Event>)
      reads this, world
    {
      Going() && saveChoice && M().stage == Viewing(p) && seen <= world.trace && Chose(u, M(), seen, c, p)
    }

    /** One turn of the save prompt under the preview in view. */
    method SaveTurn(p: Preview, ghost c: Choice, ghost seen: seq<Event>, ghost group: Group) returns (next: Next)
      requires Offering(p, c, seen)
      modifies this, world
      ensures Settled()
      ensures next == Over ==> err || !M().live
      ensures next != Over ==> Onward() && if next == Again then Offering(p, c, seen) else !M().stage.Viewing?
      ensures Follows(next, old(FateAt(Saving(group, p))), Saving(group, p), Keepers(group))
    {
      ghost var before, items := world.trace, world.Rest();
      var r, item := Respond();
      if r.None? {
        if Calm() {
          FateOver(Saving(group, p), items);
        }
        return Over;
      }
      SavingLeads(group, p, item, world.Rest(), r.value);
      if r == Some("save") {
        GrantedNow(u, pieces, before, item, c, seen, p);
        SaveNow(p);
        return Over;
      }
      Print();
      if r == Some("back") {
        return Back;
      }
      next := Again;
    }

    /** The save prompt. It ends the review only by a save, "quit" or a failure. */
    method SavePrompt(p: Preview, ghost c: Choice, ghost seen: seq<Event>, ghost group: Group) returns (next: Next)
      requires Offering(p, c, seen)
      modifies this, world
      ensures Settled() && next != Again
      ensures next == Over ==> err || !M().live
      ensures next != Over ==> Onward() && !M().stage.Viewing?
      ensures Follows(next, old(FateAt(Saving(group, p))), Saving(group, p), Keepers(group))
    {
      while true
        invariant Offering(p, c, seen) && Follows(Again, old(FateAt(Saving(group, p))), Saving(group, p),
                    Keepers(group))
        invariant Same(old(M()), M()) && old(world.trace) <= world.trace && world.Left() <= old(world.Left())
        decreases world.Left()
      {
        next := SaveTurn(p, c, seen, group);
        if next != Again {
          return;
        }
      }
    }

    // ----- The preview -----

    /** Asks the store for the preview of a selection. */
    method Fetch(q: Request) returns (p: Option<Preview>)
      requires Going()
      modifies this, world
      ensures Valid() && err == old(err) && world.Left() == old(world.Left()) && M().demand == NoDemand
      ensures p.Some? ==> M() == old(M()).(stage := Fetching(p.value), since := |old(world.trace)|)
                          && world.trace == old(world.trace) + [Fetched(q, p)]
      ensures M().saved == old(M().saved) && (Calm() ==> p == Some(store.preview(q)))
    {
      p := world.LoadPreview(q);
      WatchAppend(u, pieces, old(world.trace), Fetched(q, p));
      SoundAppend(u, pieces, old(world.trace), saveChoice, Fetched(q, p));
    }

    /** Writes one piece of the preview. */
    method WritePiece(p: Preview, k: nat)
      requires Going() && (!err ==> M().stage == Writing(p, k))
      modifies this, world
      ensures Going() && world.Left() == old(world.Left()) && (old(err) ==> err)
      ensures Same(old(M()), M()) && old(world.trace) <= world.trace
      ensures !err ==> M().stage == if k == pieces(p) then Viewing(p) else Writing(p, k + 1)
      ensures M().saved == old(M().saved)
    {
      Write(Piece(p, k));
      if !old(err) {
        WatchAppend(u, pieces, old(world.trace), Wrote(Piece(p, k), !err));
      }
    }

    /** Writes the whole preview: without an error it is in view. */
    method WritePreview(p: Preview)
      requires Going() && (!err ==> M().stage == Writing(p, 0))
      modifies this, world
      ensures Going() && world.Left() == old(world.Left())
      ensures Same(old(M()), M()) && old(world.trace) <= world.trace
      ensures !err ==> M().stage == Viewing(p)
    {
      for k := 0 to pieces(p) + 1
        invariant Going() && world.Left() == old(world.Left()) && Same(old(M()), M()) && old(world.trace) <= world.trace
        invariant !err ==> M().stage == if k <= pieces(p) then Writing(p, k) else Viewing(p)
      {
        WritePiece(p, k);
      }
    }

    /** The check between fetching a preview and writing it. */
    method Cleared(p: Preview) returns (ok: bool)
      requires Going() && M().stage == Fetching(p)
      modifies this, world
      ensures Valid() && err == old(err) && world.Left() == old(world.Left()) && M().demand == NoDemand
      ensures ok ==> M() == old(M()).(stage := Writing(p, 0)) && old(world.trace) <= world.trace
      ensures (Calm() ==> ok) && M().saved == old(M().saved)
    {
      var c := Cancelled();
      WatchAppend(u, pieces, old(world.trace), Checked(c));
      ok := !c;
    }

    /** The latest report, a group of it and an available keeper in the group have been chosen. */
    ghost predicate AtCopies(c: Choice, seen: seq<Event>)
      reads this, world
    {
      && Choosing() && M().report == Some(c.report) && M().at < c.groupAt
      && seen <= world.trace && ChoseKeeper(u, seen, c)
    }

    /** Loads the preview of a selection and checks it against the frozen rows. */
    method FetchChecked(frozen: Report, group: Group, keeper: Member, copies: seq<Member>, ghost c: Choice)
      returns (r: Option<Preview>)
      requires Choosing() && M().report == Some(c.report) && M().at < c.groupAt && ChoseCopies(u, world.trace, c)
      requires frozen == c.report && group == c.Group() && keeper == c.Keeper() && copies == Chosen(group, c.copyRows)
      modifies this, world
      ensures Valid() && M().demand == NoDemand && world.Left() == old(world.Left())
      ensures r.Some? ==> Going() && M().stage == Fetching(r.value) && Chose(u, M(), world.trace, c, r.value)
                          && M().report == old(M().report) && M().at == old(M().at) && old(world.trace) <= world.trace
      ensures M().saved == old(M().saved)
      ensures Calm() ==> old(FateOf(group, keeper, copies)) ==
                         if r.Some? && saveChoice then FateAt(Saving(group, r.value)) else None
    {
      var q := RequestFor(frozen, keeper, copies);
      assert Picked(group, keeper, copies);
      r := Fetch(q);
      if r.None? {
        return;
      }
      var same := CheckPreview(frozen, group, keeper, copies, r.value);
      if !same {
        return None;
      }
      ChoseFetched(u, old(M()), old(world.trace), M(), world.trace, c, r.value, q);
    }

    /** Shows the checked preview of a selection, and offers to save it when that was opted into. */
    method PreviewAndSave(frozen: Report, group: Group, keeper: Member, copies: seq<Member>, ghost c: Choice)
      returns (next: Next)
      requires Choosing() && M().report == Some(c.report) && M().at < c.groupAt && ChoseCopies(u, world.trace, c)
      requires frozen == c.report && group == c.Group() && keeper == c.Keeper() && copies == Chosen(group, c.copyRows)
      modifies this, world
      ensures Settled() && next != Again
      ensures next == Back ==> Advanced()
      ensures Follows(next, old(FateOf(group, keeper, copies)), Keepers(group), Keepers(group))
    {
      var loaded := FetchChecked(frozen, group, keeper, copies, c);
      if loaded.None? {
        return Over;
      }
      next := ShowAndSave(loaded.value, c, group);
    }

    method ShowAndSave(p: Preview, ghost c: Choice, ghost group: Group) returns (next: Next)
      requires Going() && M().stage == Fetching(p) && Chose(u, M(), world.trace, c, p)
      modifies this, world
      ensures Settled() && next != Again
      ensures next == Back ==> Advanced()
      ensures Follows(next, if saveChoice then old(FateAt(Saving(group, p))) else None, Keepers(group), Keepers(group))
    {
      ghost var seen := world.trace;
      next := Show(p);
      if next == Again {
        next := SavePrompt(p, c, seen, group);
      }
    }

    /** Shows a fetched preview; `Again` means that it is in view and may be saved. */
    method Show(p: Preview) returns (next: Next)
      requires Going() && M().stage == Fetching(p)
      modifies this, world
      ensures Settled() && next != Back && world.Left() == old(world.Left())
      ensures next == Again ==> Going() && saveChoice && M().stage == Viewing(p)
                                && Same(old(M()), M()) && old(world.trace) <= world.trace
      ensures M().saved == old(M().saved) && (Calm() ==> next == if saveChoice then Again else Over)
    {
      var ok := Cleared(p);
      if !ok {
        return Over;
      }
      WritePreview(p);
      if err {
        return Over;
      }
      if !saveChoice {
        var c := Cancelled();
        return Over;
      }
      next := Again;
    }

    /** The review goes on, and no preview is in view. */
    ghost predicate Choosing()
      reads this, world
    {
      Going() && !M().stage.Viewing?
    }

    /** The review goes on with the same report. */
    twostate predicate Advanced()
      reads this, world
    {
      Choosing() && M().report == old(M().report) && M().at == old(M().at) && old(world.trace) <= world.trace
      && world.Left() < old(world.Left())
    }

    // ----- Copies, keepers and groups -----

    /** A prompt for copies: `Back` when the line says so, otherwise the copies that it names, if it
        names any. */
    method AskSelection(group: Group, keeper: Member)
      returns (next: Next, copies: Option<seq<Member>>, ghost rows: seq<nat>, ghost item: Input)
      requires Choosing()
      modifies this, world
      ensures Settled()
      ensures next != Over ==> Advanced() && world.trace == old(world.trace) + Exchange(item)
      ensures Asked(old(world.Rest()), next, item, world.Rest(), M().saved, "back")
      ensures Selected(group, keeper, next, copies, rows, item)
    {
      var r;
      r, item := Respond();
      next, copies, rows := Over, None, [];
      if r == Some("back") {
        next := Back;
      } else if r.Some? {
        next := Again;
        copies, rows := PickCopies(u, group, keeper, r.value);
      }
    }

    /** The copy prompt's question. */
    method AskCopies(group: Group, keeper: Member)
      returns (next: Next, copies: Option<seq<Member>>, ghost rows: seq<nat>, ghost item: Input)
      requires Choosing()
      modifies this, world
      ensures Settled()
      ensures next != Over ==> Advanced()
      ensures copies.Some? ==> world.trace == old(world.trace) + Exchange(item)
      ensures Selected(group, keeper, next, copies, rows, item)
      ensures copies.None? ==> Follows(next, old(FateAt(Copies(group, keeper))), Copies(group, keeper), Keepers(group))
      ensures Calm() && copies.Some? ==> old(FateAt(Copies(group, keeper))) == FateOf(group, keeper, copies.value)
    {
      ghost var items := world.Rest();
      next, copies, rows, item := AskSelection(group, keeper);
      CopiesAsked(group, keeper, items, next, copies, rows, item, world.Rest(), M().saved);
      if copies.None? && next != Over {
        PrintHere();
      }
    }

    /** One turn of the copy prompt. */
    method CopiesTurn(frozen: Report, group: Group, keeper: Member, ghost c: Choice, ghost seen: seq<Event>)
      returns (next: Next)
      requires AtCopies(c, seen) && frozen == c.report && group == c.Group() && keeper == c.Keeper()
      modifies this, world
      ensures Settled()
      ensures next != Over ==> Advanced()
      ensures Follows(next, old(FateAt(Copies(group, keeper))), Copies(group, keeper), Keepers(group))
    {
      ghost var before := world.trace;
      var copies;
      ghost var rows, item;
      next, copies, rows, item := AskCopies(group, keeper);
      if copies.Some? {
        next := PreviewTyped(frozen, group, keeper, copies.value, c, seen, before, item, rows);
      }
    }

    /** The preview of the copies that were just typed. */
    method PreviewTyped(frozen: Report, group: Group, keeper: Member, copies: seq<Member>, ghost c: Choice,
                        ghost seen: seq<Event>, ghost before: seq<Event>, ghost item: Input, ghost rows: seq<nat>)
      returns (next: Next)
      requires AtCopies(c, seen) && frozen == c.report && group == c.Group() && keeper == c.Keeper()
      requires seen <= before && world.trace == before + Exchange(item) && Command(u, item).Some?
      requires ParseNumbers(u, Command(u, item).value) == Some(rows)
      requires SelectedRows(group, keeper, rows) && copies == Chosen(group, rows)
      modifies this, world
      ensures Settled() && next != Again
      ensures next == Back ==> Advanced()
      ensures Follows(next, old(FateOf(group, keeper, copies)), Keepers(group), Keepers(group))
    {
      var c' := CopiesChosen(u, seen, before, item, Command(u, item).value, c, rows);
      next := PreviewAndSave(frozen, group, keeper, copies, c');
    }

    /** The copy prompt under a chosen keeper. */
    method CopiesPrompt(frozen: Report, group: Group, keeper: Member, ghost c: Choice, ghost seen: seq<Event>)
      returns (next: Next)
      requires AtCopies(c, seen) && frozen == c.report && group == c.Group() && keeper == c.Keeper()
      modifies this, world
      ensures Settled() && next != Again
      ensures next == Back ==> Advanced()
      ensures Follows(next, old(FateAt(Copies(group, keeper))), Copies(group, keeper), Keepers(group))
    {
      while true
        invariant Unmoved() || Advanced()
        invariant Follows(Again, old(FateAt(Copies(group, keeper))), Copies(group, keeper), Keepers(group))
        decreases world.Left()
      {
        next := CopiesTurn(frozen, group, keeper, c, seen);
        if next != Again {
          return;
        }
      }
    }

    /** A group of the latest report has been chosen. */
    ghost predicate AtKeepers(c: Choice, seen: seq<Event>)
      reads this, world
    {
      && Choosing() && M().report == Some(c.report) && M().at < c.groupAt
      && seen <= world.trace && ChoseGroup(u, seen, c)
    }

    /** A prompt for one row: `Back` when the response is the one that leaves the prompt, otherwise the
        row, or zero when the line names none. */
    method AskRow(rows: nat, leave: string) returns (next: Next, row: nat, ghost item: Input)
      requires Choosing()
      modifies this, world
      ensures Settled() && row <= rows
      ensures next != Over ==> Advanced() && world.trace == old(world.trace) + Exchange(item)
      ensures row > 0 ==> next == Again && Command(u, item).Some?
      ensures row > 0 ==> ParseNumbers(u, Command(u, item).value) == Some([row])
      ensures Asked(old(world.Rest()), next, item, world.Rest(), M().saved, leave)
      ensures if next == Again then row == OneRow(u, rows, Command(u, item).value) else row == 0
    {
      var r;
      r, item := Respond();
      row := 0;
      if r.None? {
        next := Over;
      } else if r == Some(leave) {
        next := Back;
      } else {
        next := Again;
        row := PickOne(u, rows, r.value);
      }
    }

    /** The keeper prompt's question. */
    method AskKeeper(group: Group) returns (next: Next, row: nat, ghost item: Input)
      requires Choosing()
      modifies this, world
      ensures Settled() && row <= |group.members|
      ensures next != Over ==> Advanced()
      ensures next == Again ==> world.trace == old(world.trace) + Exchange(item)
      ensures row > 0 ==> next == Again && Command(u, item).Some?
      ensures row > 0 ==> ParseNumbers(u, Command(u, item).value) == Some([row])
      ensures Follows(next, old(FateAt(Keepers(group))), ToCopies(group, row), Groups)
    {
      ghost var items := world.Rest();
      next, row, item := AskRow(|group.members|, "back");
      KeepersAsked(group, items, next, row, item, world.Rest(), M().saved);
      if next == Back {
        PrintHere();
      }
    }

    /** One turn of the keeper prompt, copies and all that follows included. */
    method KeeperTurn(frozen: Report, group: Group, ghost c: Choice, ghost seen: seq<Event>) returns (next: Next)
      requires AtKeepers(c, seen) && frozen == c.report && group == c.Group()
      modifies this, world
      ensures Settled()
      ensures next != Over ==> Advanced()
      ensures Follows(next, old(FateAt(Keepers(group))), Keepers(group), Groups)
    {
      ghost var before := world.trace;
      var row;
      ghost var item;
      next, row, item := AskKeeper(group);
      if next == Again {
        next := AtRow(frozen, group, row, c, seen, before, item);
      }
    }

    /** What follows the keeper prompt's row, if it named one. */
    method AtRow(frozen: Report, group: Group, row: nat, ghost c: Choice, ghost seen: seq<Event>,
                 ghost before: seq<Event>, ghost item: Input)
      returns (next: Next)
      requires AtKeepers(c, seen) && frozen == c.report && group == c.Group() && seen <= before
      requires before + Exchange(item) <= world.trace && row <= |group.members|
      requires row > 0 ==> Command(u, item).Some? && ParseNumbers(u, Command(u, item).value) == Some([row])
      modifies this, world
      ensures Settled() && next != Back
      ensures next == Again ==> Unmoved() || Advanced()
      ensures Follows(next, old(FateAt(ToCopies(group, row))), Keepers(group), Groups)
    {
      PrintHere();
      next := Again;
      if row > 0 && Available(group.members[row - 1]) {
        next := WithKeeper(frozen, group, row, c, seen, before, item);
      }
    }

    /** Anything printed between two prompts. */
    method PrintHere()
      requires Choosing()
      modifies this, world
      ensures Unmoved() && world.Rest() == old(world.Rest())
    {
      Print();
    }

    /** The copies for a keeper that was just chosen; then the keeper prompt again. */
    method WithKeeper(frozen: Report, group: Group, row: nat, ghost c: Choice, ghost seen: seq<Event>,
                      ghost before: seq<Event>, ghost item: Input)
      returns (next: Next)
      requires AtKeepers(c, seen) && frozen == c.report && group == c.Group() && seen <= before
      requires before + Exchange(item) <= world.trace && 1 <= row <= |group.members|
               && Available(group.members[row - 1])
      requires Command(u, item).Some? && ParseNumbers(u, Command(u, item).value) == Some([row])
      modifies this, world
      ensures Settled() && next != Back
      ensures next == Again ==> Advanced()
      ensures Follows(next, old(FateAt(Copies(group, group.members[row - 1]))), Keepers(group), Groups)
    {
      ghost var c', chosen := KeeperChosen(u, seen, before, item, c, row);
      next := CopiesPrompt(frozen, group, group.members[row - 1], c', chosen);
      next := if next == Back then Again else next;
    }

    method KeepersPrompt(frozen: Report, group: Group, ghost c: Choice, ghost seen: seq<Event>) returns (next: Next)
      requires AtKeepers(c, seen) && frozen == c.report && group == c.Group()
      modifies this, world
      ensures Settled() && next != Again
      ensures next == Back ==> Advanced()
      ensures Follows(next, old(FateAt(Keepers(group))), Keepers(group), Groups)
    {
      while true
        invariant Unmoved() || Advanced()
        invariant Follows(Again, old(FateAt(Keepers(group))), Keepers(group), Groups)
        decreases world.Left()
      {
        next := KeeperTurn(frozen, group, c, seen);
        if next != Again {
          return;
        }
      }
    }

    /** The group prompt's question. */
    method AskGroup(frozen: Report) returns (next: Next, row: nat, ghost item: Input)
      requires Choosing() && M().report == Some(frozen)
      modifies this, world
      ensures Settled() && row <= |frozen.groups|
      ensures next != Over ==> Advanced() && world.trace == old(world.trace) + Exchange(item)
      ensures row > 0 ==> next == Again && Command(u, item).Some?
      ensures row > 0 ==> ParseNumbers(u, Command(u, item).value) == Some([row])
      ensures Follows(next, old(FateAt(Groups)), if row == 0 then Groups else Entered(frozen.groups[row - 1]), Groups)
    {
      ghost var items := world.Rest();
      next, row, item := AskRow(|frozen.groups|, "refresh");
      GroupsAsked(frozen, items, next, row, item, world.Rest(), M().saved);
    }

    /** One turn of the group prompt over a frozen report; `Back` asks for a fresh one. */
    method GroupTurn(frozen: Report) returns (next: Next)
      requires Choosing() && M().report == Some(frozen) && M().at < |world.trace|
      modifies this, world
      ensures Settled()
      ensures next != Over ==> Advanced()
      ensures Follows(next, old(FateAt(Groups)), Groups, Groups)
    {
      ghost var before := world.trace;
      var row;
      ghost var item;
      next, row, item := AskGroup(frozen);
      if next == Again {
        next := AtGroup(frozen, row, before, item);
      }
    }

    /** What follows the group prompt's row, if it named one. */
    method AtGroup(frozen: Report, row: nat, ghost before: seq<Event>, ghost item: Input) returns (next: Next)
      requires Choosing() && M().report == Some(frozen) && M().at < |before| && before + Exchange(item) <= world.trace
      requires row <= |frozen.groups|
      requires row > 0 ==> Command(u, item).Some? && ParseNumbers(u, Command(u, item).value) == Some([row])
      modifies this, world
      ensures Settled() && next != Back
      ensures next == Again ==> Unmoved() || Advanced()
      ensures Follows(next, old(FateAt(if row == 0 then Groups else Entered(frozen.groups[row - 1]))), Groups, Groups)
    {
      PrintHere();
      next := Again;
      if row > 0 {
        next := InGroup(frozen, row, before, item);
        next := if next == Back then Again else next;
      }
    }

    /** The chosen group, unless it has too few members to choose from. */
    method InGroup(frozen: Report, row: nat, ghost before: seq<Event>, ghost item: Input) returns (next: Next)
      requires Choosing() && M().report == Some(frozen) && M().at < |before| && before + Exchange(item) <= world.trace
      requires Command(u, item).Some? && ParseNumbers(u, Command(u, item).value) == Some([row])
               && 1 <= row <= |frozen.groups|
      modifies this, world
      ensures Settled()
      ensures next != Over ==> Unmoved() || Advanced()
      ensures Follows(next, old(FateAt(Entered(frozen.groups[row - 1]))), Groups, Groups)
    {
      var group := frozen.groups[row - 1];
      var available := CountAvailable(group);
      if available < 2 {
        Print();
        return Again;
      }
      ghost var c, chosen := GroupChosen(u, before, item, frozen, row);
      next := KeepersPrompt(frozen, group, c, chosen);
    }

    method GroupsPrompt(frozen: Report) returns (next: Next)
      requires Choosing() && M().report == Some(frozen) && M().at < |world.trace|
      modifies this, world
      ensures Settled() && next != Again
      ensures next == Back ==> Advanced()
      ensures Follows(next, old(FateAt(Groups)), Groups, Groups)
    {
      while true
        invariant Unmoved() || Advanced()
        invariant Follows(Again, old(FateAt(Groups)), Groups, Groups)
        decreases world.Left()
      {
        next := GroupTurn(frozen);
        if next != Again {
          return;
        }
      }
    }

    method Load() returns (r: Option<Report>)
      requires Choosing()
      modifies this, world
      ensures Valid() && world.Left() == old(world.Left()) && M().demand == NoDemand
      ensures r.Some? ==> Choosing() && M().report == r && M().at < |world.trace|
      ensures M().saved == old(M().saved) && (Calm() ==> r == Some(store.report))
    {
      r := world.LoadGroups();
      WatchAppend(u, pieces, old(world.trace), Loaded(r));
      SoundAppend(u, pieces, old(world.trace), saveChoice, Loaded(r));
    }

    /** The whole review. Whatever is typed, however writes and cancellation fall, and whatever the
        store answers, every save is warranted, whoever properly asks for one gets it, nothing is
        written after a failed write, and the review ends. And when nothing fails, nobody cancels and the
        store does not change, it saves exactly what the dialogue comes to. */
    method ReviewHashes()
      requires Choosing()
      modifies this, world
      ensures world.Valid() && Guarded(world.trace)
      ensures Lawful(u, pieces, world.trace, saveChoice) && Honoured(u, pieces, world.trace)
      ensures Stable(world.env, store) && Judged() ==>
                var o := Outcome(u, store, saveChoice, Groups, old(world.Rest()));
                if o.Some? then Saves(world.trace, o.value) else NoSave(world.trace)
    {
      Reviews();
      FatesGovern(u, store, saveChoice);
      SavedMeans(u, pieces, world.trace);
      GuardedMeans(u, pieces, world.trace);
      SoundMeans(u, pieces, world.trace, saveChoice);
      HonouredMeans(u, pieces, world.trace);
    }

    /** The outer loop: a report is loaded, frozen and gone through until the user wants a fresh one. */
    method Reviews()
      requires Choosing()
      modifies this, world
      ensures Settled() && (Calm() ==> M().saved == old(FateAt(Groups)))
    {
      while true
        invariant Choosing() && (Calm() ==> FateAt(Groups) == old(FateAt(Groups)))
        decreases world.Left()
      {
        var again := ReviewOnce();
        if !again {
          return;
        }
      }
    }

    method ReviewOnce() returns (again: bool)
      requires Choosing()
      modifies this, world
      ensures Settled() && (again ==> Choosing() && world.Left() < old(world.Left()))
      ensures Calm() ==> old(FateAt(Groups)) == if again then FateAt(Groups) else M().saved
    {
      ghost var items := world.Rest();
      again := false;
      var loaded := Load();
      if loaded.None? {
        return;
      }
      Print();
      if loaded.value.groups == [] {
        End();
        NoGroupsNoFate(items);
        return;
      }
      var next := GroupsPrompt(loaded.value);
      again := next == Back;
    }

    /** Nothing has been read yet. */
    twostate predicate Unmoved()
      reads this, world
    {
      Choosing() && M().report == old(M().report) && M().at == old(M().at) && old(world.trace) <= world.trace
      && world.Left() == old(world.Left())
    }
  }

  method CountAvailable(group: Group) returns (available: nat)
    ensures available == AvailableMembers(group.members)
  {
    available := 0;
    for i := 0 to |group.members|
      invariant available == AvailableMembers(group.members[..i])
    {
      assert group.members[..i + 1][..i] == group.members[..i];
      if Available(group.members[i]) {
        available := available + 1;
      }
    }
    assert group.members[..|group.members|] == group.members;
  }

  /** The single row that a line names, or zero. */
  method PickOne(u: W.Letters, rows: nat, text: string) returns (row: nat)
    ensures row == OneRow(u, rows, text) && (row > 0 ==> ParseNumbers(u, text) == Some([row]))
  {
    var numbers := ParseReviewNumbers(u, text);
    if numbers.None? || |numbers.value| != 1 || numbers.value[0] > rows {
      return 0;
    }
    assert numbers.value == [numbers.value[0]];
    row := numbers.value[0];
  }

  lemma GroupChosen(u: W.Letters, before: seq<Event>, item: Input, frozen: Report, row: nat)
    returns (c: Choice, seen: seq<Event>)
    requires Command(u, item).Some? && ParseNumbers(u, Command(u, item).value) == Some([row])
             && 1 <= row <= |frozen.groups|
    ensures c.report == frozen && c.groupAt == |before| + 3 && seen == before + Exchange(item)
    ensures ChoseGroup(u, seen, c) && c.Group() == frozen.groups[row - 1]
  {
    c, seen := Choice(frozen, |before| + 3, row, 0, 0, 0, []), before + Exchange(item);
    PickedNow(u, before, item, Command(u, item).value, [row]);
  }

  lemma KeeperChosen(u: W.Letters, seen: seq<Event>, before: seq<Event>, item: Input, c: Choice, row: nat)
    returns (c': Choice, seen': seq<Event>)
    requires seen <= before && ChoseGroup(u, seen, c) && 1 <= row <= |c.Group().members|
             && Available(c.Group().members[row - 1])
    requires Command(u, item).Some? && ParseNumbers(u, Command(u, item).value) == Some([row])
    ensures c' == c.(keeperAt := |before| + 3, keeperRow := row) && seen' == before + Exchange(item)
    ensures ChoseKeeper(u, seen', c') && c'.Group() == c.Group() && c'.Keeper() == c.Group().members[row - 1]
  {
    c', seen' := c.(keeperAt := |before| + 3, keeperRow := row), before + Exchange(item);
    GroupLater(u, seen, seen', c);
    PickedNow(u, before, item, Command(u, item).value, [row]);
  }

  /** The copies that a line names, and their rows. */
  method PickCopies(u: W.Letters, group: Group, keeper: Member, text: string)
    returns (r: Option<seq<Member>>, ghost rows: seq<nat>)
    ensures r.Some? <==> ParseNumbers(u, text).Some? && SelectedRows(group, keeper, ParseNumbers(u, text).value)
    ensures r.Some? ==> ParseNumbers(u, text) == Some(rows) && r.value == Chosen(group, rows)
  {
    var numbers := ParseReviewNumbers(u, text);
    if numbers.None? {
      return None, [];
    }
    rows := numbers.value;
    r := SelectCopies(group, keeper, numbers.value);
  }

  lemma CopiesChosen(u: W.Letters, seen: seq<Event>, before: seq<Event>, item: Input, text: string, c: Choice,
                     rows: seq<nat>)
    returns (c': Choice)
    requires seen <= before && ChoseKeeper(u, seen, c) && SelectedRows(c.Group(), c.Keeper(), rows)
    requires Command(u, item) == Some(text) && ParseNumbers(u, text) == Some(rows)
    ensures c' == c.(copiesAt := |before| + 3, copyRows := rows) && ChoseCopies(u, before + Exchange(item), c')
    ensures c'.Group() == c.Group() && c'.Keeper() == c.Keeper()
  {
    c' := c.(copiesAt := |before| + 3, copyRows := rows);
    var after := before + Exchange(item);
    PickedNow(u, before, item, text, rows);
    assert ChoseKeeper(u, after, c') by {
      KeeperLater(u, seen, after, c);
    }
  }

  /** Fetching the preview of a choice. */
  lemma ChoseFetched(u: W.Letters, m: Monitor, before: seq<Event>, m': Monitor, after: seq<Event>, c: Choice,
                     p: Preview, q: Request)
    requires ChoseCopies(u, before, c) && m.report == Some(c.report) && m.at < c.groupAt
    requires after == before + [Fetched(q, Some(p))] && q == c.Request()
    requires m'.report == m.report && m'.at == m.at && m'.since == |before|
    requires Shows(c.report, c.Group(), c.Keeper(), Chosen(c.Group(), c.copyRows), p)
    ensures Chose(u, m', after, c, p)
  {
    KeeperLater(u, before, after, c);
    assert Picks(u, after, c.copiesAt, c.copyRows);
  }
}
