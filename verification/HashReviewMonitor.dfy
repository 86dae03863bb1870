/** A monitor that watches a review event by event, and what its state says about the whole trace. */
module HashReviewMonitor {
  import opened Basics
  import opened ReviewInput
  import opened ReviewWorld
  import opened HashReview
  import W = Wrapping

  /** Where the latest preview stands: not in view, fetched, being written, or in view. */
  datatype Stage = Away | Fetching(p: Preview) | Writing(p: Preview, next: nat) | Viewing(p: Preview)

  /** Whether someone has asked to save the preview in view: the line was taken, one check passed, or
      the save is due. */
  datatype Demand = NoDemand | Heard(p: Preview) | Half(p: Preview) | Due(p: Preview)

  datatype Monitor = Monitor(live: bool, broken: bool, guarded: bool, honoured: bool, report: Option<Report>, at: nat,
                             stage: Stage, since: nat, demand: Demand, saved: Option<Preview>)

  const START := Monitor(true, false, true, true, None, 0, Away, 0, NoDemand, None)

  function NextStage(u: W.Letters, pieces: Preview -> nat, stage: Stage, e: Event): Stage {
    if e.Fetched? then (if e.preview.Some? then Fetching(e.preview.value) else Away)
    else match stage
      case Away => Away
      case Fetching(p) => if e == Checked(false) then Writing(p, 0) else Away
      case Writing(p, k) =>
        if e != Wrote(Piece(p, k), true) then Away else if k == pieces(p) then Viewing(p) else Writing(p, k + 1)
      case Viewing(_) => if Leaves(u, e) then Away else stage
  }

  function NextDemand(u: W.Letters, stage: Stage, demand: Demand, e: Event): Demand {
    match e
    case Took(item) => if stage.Viewing? && Command(u, item) == Some("save") then Heard(stage.p) else NoDemand
    case Checked(c) =>
      if c then NoDemand
      else (match demand case Heard(p) => Half(p) case Half(p) => Due(p) case _ => NoDemand)
    case _ => NoDemand
  }

  function Watched(u: W.Letters, pieces: Preview -> nat, m: Monitor, time: nat, e: Event): Monitor {
    Monitor(m.live && Continues(u, e), m.broken || Failed(e), m.guarded && !(m.broken && e.Wrote?),
            m.honoured && (m.demand.Due? ==> e.Save? && e.choice == m.demand.p),
            if e.Loaded? then e.report else m.report, if e.Loaded? then time else m.at,
            NextStage(u, pieces, m.stage, e), if e.Fetched? then time else m.since, NextDemand(u, m.stage, m.demand, e),
            if e.Save? then Some(e.choice) else m.saved)
  }

  ghost function Watch(u: W.Letters, pieces: Preview -> nat, trace: seq<Event>): Monitor {
    if trace == [] then START else
      Watched(u, pieces, Watch(u, pieces, trace[..|trace| - 1]), |trace| - 1, trace[|trace| - 1])
  }

  lemma WatchAppend(u: W.Letters, pieces: Preview -> nat, trace: seq<Event>, e: Event)
    ensures Watch(u, pieces, trace + [e]) == Watched(u, pieces, Watch(u, pieces, trace), |trace|, e)
  {
    assert (trace + [e])[..|trace|] == trace;
  }

  /** What an answered prompt does to the monitor. */
  function AfterExchange(m: Monitor, text: string): Monitor {
    m.(live := m.live && text != "quit", stage := if m.stage.Viewing? && text != "back" then m.stage else Away,
       demand := if m.stage.Viewing? && text == "save" then Due(m.stage.p) else NoDemand)
  }

  /** Nothing but a preview in view survives a prompt. */
  function Kept(stage: Stage): Stage {
    if stage.Viewing? then stage else Away
  }

  lemma CheckWatched(u: W.Letters, pieces: Preview -> nat, trace: seq<Event>)
    requires var m := Watch(u, pieces, trace); !m.stage.Fetching? && m.demand == NoDemand
    ensures var m := Watch(u, pieces, trace);
            Watch(u, pieces, trace + [Checked(false)]) == m.(stage := Kept(m.stage))
  {
    WatchAppend(u, pieces, trace, Checked(false));
  }

  lemma ProseWatched(u: W.Letters, pieces: Preview -> nat, trace: seq<Event>)
    requires var m := Watch(u, pieces, trace); !m.broken && m.demand == NoDemand
    ensures var m := Watch(u, pieces, trace);
            Watch(u, pieces, trace + [Wrote(Prose, true)]) == m.(stage := Kept(m.stage))
  {
    WatchAppend(u, pieces, trace, Wrote(Prose, true));
  }

  /** The first three events of an exchange. */
  lemma PromptWatched(u: W.Letters, pieces: Preview -> nat, before: seq<Event>)
    requires var m := Watch(u, pieces, before); !m.broken && m.demand == NoDemand
    ensures var m := Watch(u, pieces, before);
            Watch(u, pieces, before + [Checked(false)] + [Wrote(Prose, true)] + [Checked(false)]) ==
                m.(stage := Kept(m.stage))
  {
    WatchAppend(u, pieces, before, Checked(false));
    ProseWatched(u, pieces, before + [Checked(false)]);
    CheckWatched(u, pieces, before + [Checked(false)] + [Wrote(Prose, true)]);
  }

  /** The last three. */
  lemma LineWatched(u: W.Letters, pieces: Preview -> nat, before: seq<Event>, item: Input, text: string)
    requires Command(u, item) == Some(text)
    requires var m := Watch(u, pieces, before); m.stage == Kept(m.stage) && m.demand == NoDemand
    ensures Watch(u, pieces, before + [Took(item)] + [Checked(false)] + [Checked(false)]) ==
              AfterExchange(Watch(u, pieces, before), text)
  {
    var m, a := Watch(u, pieces, before), before + [Took(item)];
    var stage := if m.stage.Viewing? && text != "back" then m.stage else Away;
    var asks := m.stage.Viewing? && text == "save";
    WatchAppend(u, pieces, before, Took(item));
    assert Watch(u, pieces, a) == m.(live := m.live && text != "quit", stage := stage,
                                     demand := if asks then Heard(m.stage.p) else NoDemand);
    WatchAppend(u, pieces, a, Checked(false));
    assert Watch(u, pieces, a + [Checked(false)]) ==
           m.(live := m.live && text != "quit", stage := stage, demand := if asks then Half(m.stage.p) else NoDemand);
    WatchAppend(u, pieces, a + [Checked(false)], Checked(false));
  }

  /** The events of an exchange, one at a time. */
  lemma ExchangeSpelled(before: seq<Event>, item: Input)
    ensures before + [Checked(false)] + [Wrote(Prose, true)] + [Checked(false)] + [Took(item)] + [Checked(false)] +
              [Checked(false)]
            == before + Exchange(item)
  {
  }

  lemma ExchangeWatched(u: W.Letters, pieces: Preview -> nat, before: seq<Event>, item: Input, text: string)
    requires Command(u, item) == Some(text)
    requires var m := Watch(u, pieces, before); !m.broken && m.demand == NoDemand
    ensures Watch(u, pieces, before + Exchange(item)) == AfterExchange(Watch(u, pieces, before), text)
  {
    var a := before + [Checked(false)] + [Wrote(Prose, true)] + [Checked(false)];
    PromptWatched(u, pieces, before);
    LineWatched(u, pieces, a, item, text);
    ExchangeSpelled(before, item);
  }

  /** The monitor's form of a warrant. */
  ghost predicate Granted(u: W.Letters, pieces: Preview -> nat, before: seq<Event>, p: Preview) {
    var m := Watch(u, pieces, before);
    && m.live && !m.broken && m.stage == Viewing(p)
    && (exists c :: Chose(u, m, before, c, p))
    && (exists item :: Answered(u, before, item, "save"))
  }

  /** The choice is from the latest report and was made before the preview was fetched. */
  ghost predicate Chose(u: W.Letters, m: Monitor, trace: seq<Event>, c: Choice, p: Preview) {
    && m.report == Some(c.report) && m.at < c.groupAt && ChoseCopies(u, trace, c) && c.copiesAt < m.since
    && Shows(c.report, c.Group(), c.Keeper(), Chosen(c.Group(), c.copyRows), p)
    && m.since < |trace| && trace[m.since].Fetched? && trace[m.since].request == c.Request()
  }

  lemma ChoseLater(u: W.Letters, m: Monitor, before: seq<Event>, m': Monitor, after: seq<Event>, c: Choice, p: Preview)
    requires Chose(u, m, before, c, p) && before <= after
    requires m'.report == m.report && m'.at == m.at && m'.since == m.since
    ensures Chose(u, m', after, c, p)
  {
    KeeperLater(u, before, after, c);
    assert Picks(u, after, c.copiesAt, c.copyRows);
  }

  lemma GroupLater(u: W.Letters, before: seq<Event>, after: seq<Event>, c: Choice)
    requires ChoseGroup(u, before, c) && before <= after
    ensures ChoseGroup(u, after, c)
  {
    assert Picks(u, after, c.groupAt, [c.groupRow]);
  }

  lemma KeeperLater(u: W.Letters, before: seq<Event>, after: seq<Event>, c: Choice)
    requires ChoseKeeper(u, before, c) && before <= after
    ensures ChoseKeeper(u, after, c)
  {
    assert Picks(u, after, c.groupAt, [c.groupRow]) && Picks(u, after, c.keeperAt, [c.keeperRow]);
  }

  /** A line at the end of the trace, as a pick of rows. */
  lemma PickedNow(u: W.Letters, before: seq<Event>, item: Input, text: string, rows: seq<nat>)
    requires Command(u, item) == Some(text) && ParseNumbers(u, text) == Some(rows)
    ensures Picks(u, before + Exchange(item), |before| + 3, rows)
  {
    assert (before + Exchange(item))[|before| + 3] == Took(item);
  }

  /** Answering "save" under the preview of a choice. */
  lemma GrantedNow(u: W.Letters, pieces: Preview -> nat, before: seq<Event>, item: Input, c: Choice,
                   seen: seq<Event>, p: Preview)
    requires Command(u, item) == Some("save") && seen <= before
    requires var m := Watch(u, pieces, before);
             m.live && !m.broken && m.demand == NoDemand && m.stage == Viewing(p) && Chose(u, m, seen, c, p)
    ensures Granted(u, pieces, before + Exchange(item), p)
  {
    var after := before + Exchange(item);
    ExchangeWatched(u, pieces, before, item, "save");
    ChoseLater(u, Watch(u, pieces, before), seen, Watch(u, pieces, after), after, c, p);
    assert after[|after| - 6..] == Exchange(item);
    assert Answered(u, after, item, "save");
  }

  ghost predicate Sound(u: W.Letters, pieces: Preview -> nat, trace: seq<Event>, saveChoice: bool) {
    trace == [] ||
    var before, e := trace[..|trace| - 1], trace[|trace| - 1];
    Sound(u, pieces, before, saveChoice) && (e.Save? ==> saveChoice && Granted(u, pieces, before, e.choice))
  }

  lemma SoundAppend(u: W.Letters, pieces: Preview -> nat, trace: seq<Event>, saveChoice: bool, e: Event)
    requires Sound(u, pieces, trace, saveChoice) && (e.Save? ==> saveChoice && Granted(u, pieces, trace, e.choice))
    ensures Sound(u, pieces, trace + [e], saveChoice)
  {
    assert (trace + [e])[..|trace|] == trace;
  }

  // ----- What the monitor's state means -----

  lemma {:induction false} LiveMeans(u: W.Letters, pieces: Preview -> nat, trace: seq<Event>)
    ensures Watch(u, pieces, trace).live <==> Open(u, trace)
  {
    if trace != [] {
      LiveMeans(u, pieces, trace[..|trace| - 1]);
    }
  }

  lemma {:induction false} BrokenMeans(u: W.Letters, pieces: Preview -> nat, trace: seq<Event>)
    ensures Watch(u, pieces, trace).broken <==> Broken(trace)
  {
    if trace != [] {
      var before := trace[..|trace| - 1];
      BrokenMeans(u, pieces, before);
      if Broken(before) {
        var i :| 0 <= i < |before| && Failed(before[i]);
        assert trace[i] == before[i];
      }
    }
  }

  lemma {:induction false} GuardedMeans(u: W.Letters, pieces: Preview -> nat, trace: seq<Event>)
    ensures Watch(u, pieces, trace).guarded <==> Guarded(trace)
  {
    if trace != [] {
      var n := |trace| - 1;
      var before := trace[..n];
      GuardedMeans(u, pieces, before);
      BrokenMeans(u, pieces, before);
      if Broken(before) {
        var i :| 0 <= i < |before| && Failed(before[i]);
        assert Failed(trace[i]);
      }
      if Guarded(trace) {
        assert forall i, j :: 0 <= i < j < n && Failed(before[i]) ==> Failed(trace[i]) && before[j] == trace[j];
      }
    }
  }

  lemma {:induction false} ReportMeans(u: W.Letters, pieces: Preview -> nat, trace: seq<Event>)
    ensures var m := Watch(u, pieces, trace); m.report.Some? ==> Frozen(trace, m.at, m.report.value)
  {
    if trace != [] {
      ReportMeans(u, pieces, trace[..|trace| - 1]);
    }
  }

  /** How far the latest preview has come. */
  ghost predicate Reached(u: W.Letters, pieces: Preview -> nat, trace: seq<Event>, start: nat, stage: Stage) {
    match stage
    case Away => true
    case Fetching(p) => |trace| == start + 1 && trace[start].Fetched? && trace[start].preview == Some(p)
    case Writing(p, k) =>
      && k <= pieces(p) && |trace| == start + 2 + k && Begun(trace, start, p, k)
    case Viewing(p) => InView(u, pieces, trace, start, p)
  }

  ghost predicate Begun(trace: seq<Event>, start: nat, p: Preview, k: nat) {
    && start + 2 + k <= |trace| && trace[start].Fetched? && trace[start].preview == Some(p)
    && trace[start + 1] == Checked(false)
    && forall i :: 0 <= i < k ==> trace[start + 2 + i] == Wrote(Piece(p, i), true)
  }

  lemma {:induction false} StageMeans(u: W.Letters, pieces: Preview -> nat, trace: seq<Event>)
    ensures var m := Watch(u, pieces, trace); Reached(u, pieces, trace, m.since, m.stage)
  {
    if trace != [] {
      StageMeans(u, pieces, trace[..|trace| - 1]);
      var m := Watch(u, pieces, trace[..|trace| - 1]);
      StageStep(u, pieces, trace[..|trace| - 1], trace[|trace| - 1], m.since, m.stage);
      assert trace == trace[..|trace| - 1] + [trace[|trace| - 1]];
    }
  }

  lemma StageStep(u: W.Letters, pieces: Preview -> nat, before: seq<Event>, e: Event, start: nat, stage: Stage)
    requires Reached(u, pieces, before, start, stage)
    ensures Reached(u, pieces, before + [e], if e.Fetched? then |before| else start, NextStage(u, pieces, stage, e))
  {
    var after := before + [e];
    assert forall i :: 0 <= i < |before| ==> after[i] == before[i];
    if stage.Writing? && e == Wrote(Piece(stage.p, stage.next), true) {
      assert Begun(after, start, stage.p, stage.next + 1);
      if stage.next == pieces(stage.p) {
        ViewBegins(u, pieces, after, start, stage.p);
      }
    }
  }

  lemma ViewBegins(u: W.Letters, pieces: Preview -> nat, trace: seq<Event>, start: nat, p: Preview)
    requires Begun(trace, start, p, pieces(p) + 1) && |trace| == start + 3 + pieces(p)
    ensures InView(u, pieces, trace, start, p)
  {
    forall i | start < i < |trace| ensures !Leaves(u, trace[i]) {
      if i > start + 1 {
        assert trace[start + 2 + (i - start - 2)] == Wrote(Piece(p, i - start - 2), true);
      }
    }
  }

  /** And conversely: whatever is in view, the monitor knows. */
  lemma {:induction false} ViewKnown(u: W.Letters, pieces: Preview -> nat, trace: seq<Event>, start: nat,
                                     p: Preview, n: nat)
    requires InView(u, pieces, trace, start, p) && start < n <= |trace|
    ensures Watch(u, pieces, trace[..n]).stage ==
            if n == start + 1 then Fetching(p)
            else if n <= start + 2 + pieces(p) then Writing(p, n - start - 2) else Viewing(p)
  {
    assert trace[..n][..n - 1] == trace[..n - 1];
    if n > start + 1 {
      ViewKnown(u, pieces, trace, start, p, n - 1);
      assert !Leaves(u, trace[n - 1]);
      if start + 2 < n <= start + 3 + pieces(p) {
        assert trace[start + 2 + (n - start - 3)] == Wrote(Piece(p, n - start - 3), true);
      }
    }
  }

  lemma WatchNext(u: W.Letters, pieces: Preview -> nat, trace: seq<Event>, i: nat)
    requires i < |trace|
    ensures Watch(u, pieces, trace[..i + 1]) == Watched(u, pieces, Watch(u, pieces, trace[..i]), i, trace[i])
  {
    assert trace[..i + 1] == trace[..i] + [trace[i]];
    WatchAppend(u, pieces, trace[..i], trace[i]);
  }

  lemma {:induction false} HonouredBefore(u: W.Letters, pieces: Preview -> nat, trace: seq<Event>, n: nat)
    requires n <= |trace| && Watch(u, pieces, trace).honoured
    ensures Watch(u, pieces, trace[..n]).honoured
  {
    if n == |trace| {
      assert trace[..n] == trace;
    } else {
      HonouredBefore(u, pieces, trace[..|trace| - 1], n);
      assert trace[..|trace| - 1][..n] == trace[..n];
    }
  }

  lemma DemandRises(u: W.Letters, pieces: Preview -> nat, trace: seq<Event>, i: nat, p: Preview)
    requires i + 2 < |trace| && trace[i].Took? && Command(u, trace[i].item) == Some("save")
    requires trace[i + 1] == Checked(false) && trace[i + 2] == Checked(false)
    requires Watch(u, pieces, trace[..i]).stage == Viewing(p)
    ensures Watch(u, pieces, trace[..i + 3]).demand == Due(p)
  {
    WatchNext(u, pieces, trace, i);
    assert Watch(u, pieces, trace[..i + 1]).demand == Heard(p);
    WatchNext(u, pieces, trace, i + 1);
    assert Watch(u, pieces, trace[..i + 2]).demand == Half(p);
    WatchNext(u, pieces, trace, i + 2);
  }

  lemma DemandDue(u: W.Letters, pieces: Preview -> nat, trace: seq<Event>, i: nat, start: nat, p: Preview)
    requires Asks(u, pieces, trace, i, start, p)
    ensures Watch(u, pieces, trace[..i + 3]).demand == Due(p)
  {
    ViewKnown(u, pieces, trace[..i], start, p, i);
    assert trace[..i][..i] == trace[..i];
    DemandRises(u, pieces, trace, i, p);
  }

  lemma WholePrefix<T>(s: seq<T>)
    ensures s[..|s|] == s
  {
  }

  lemma HonouredMeans(u: W.Letters, pieces: Preview -> nat, trace: seq<Event>)
    requires var m := Watch(u, pieces, trace); m.honoured && !m.demand.Due?
    ensures Honoured(u, pieces, trace)
  {
    forall i: nat, start: nat, p | Asks(u, pieces, trace, i, start, p)
      ensures i + 3 < |trace| && trace[i + 3].Save? && trace[i + 3].choice == p
    {
      WholePrefix(trace);
      DemandDue(u, pieces, trace, i, start, p);
      if i + 3 < |trace| {
        WatchNext(u, pieces, trace, i + 3);
        HonouredBefore(u, pieces, trace, i + 4);
      }
    }
  }

  lemma GrantedMeans(u: W.Letters, pieces: Preview -> nat, before: seq<Event>, p: Preview)
    requires Granted(u, pieces, before, p)
    ensures Warranted(u, pieces, before, p)
  {
    var m := Watch(u, pieces, before);
    LiveMeans(u, pieces, before);
    BrokenMeans(u, pieces, before);
    ReportMeans(u, pieces, before);
    StageMeans(u, pieces, before);
    var c :| Chose(u, m, before, c, p);
    assert Offered(u, pieces, before, c, m.at, m.since, p);
  }

  lemma {:induction false} SoundAt(u: W.Letters, pieces: Preview -> nat, trace: seq<Event>, saveChoice: bool, n: nat)
    requires Sound(u, pieces, trace, saveChoice) && n < |trace| && trace[n].Save?
    ensures saveChoice && Granted(u, pieces, trace[..n], trace[n].choice)
  {
    if n < |trace| - 1 {
      SoundAt(u, pieces, trace[..|trace| - 1], saveChoice, n);
      assert trace[..|trace| - 1][..n] == trace[..n];
    }
  }

  lemma SoundMeans(u: W.Letters, pieces: Preview -> nat, trace: seq<Event>, saveChoice: bool)
    requires Sound(u, pieces, trace, saveChoice)
    ensures Lawful(u, pieces, trace, saveChoice)
  {
    forall n | 0 <= n < |trace| && trace[n].Save?
      ensures saveChoice && Warranted(u, pieces, trace[..n], trace[n].choice)
    {
      SoundAt(u, pieces, trace, saveChoice, n);
      GrantedMeans(u, pieces, trace[..n], trace[n].choice);
    }
  }

  /** Some event saves the preview. */
  ghost predicate Saves(trace: seq<Event>, p: Preview) {
    exists n :: 0 <= n < |trace| && trace[n].Save? && trace[n].choice == p
  }

  ghost predicate NoSave(trace: seq<Event>) {
    forall n :: 0 <= n < |trace| ==> !trace[n].Save?
  }

  lemma {:induction false} SavedMeans(u: W.Letters, pieces: Preview -> nat, trace: seq<Event>)
    ensures var m := Watch(u, pieces, trace); if m.saved.Some? then Saves(trace, m.saved.value) else NoSave(trace)
  {
    if trace != [] {
      var before, e := trace[..|trace| - 1], trace[|trace| - 1];
      SavedMeans(u, pieces, before);
      var m := Watch(u, pieces, before);
      if !e.Save? && m.saved.Some? {
        var n :| 0 <= n < |before| && before[n].Save? && before[n].choice == m.saved.value;
        assert trace[n] == before[n];
      }
    }
  }
}
