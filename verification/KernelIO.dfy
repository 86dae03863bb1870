/** The tracker of kernel I/O counters: a state machine over samples that may be refused, and what
    holds in every run of it. */
module KernelIO {

  import opened Basics
  import opened ProcCounters

  datatype Status = Observed | Unavailable | Unsupported | Regressed

  datatype Sample = Sample(status: Status, reason: string, started: int, finished: int, counters: Option<Counters>)

  datatype Summary = Summary(status: Status, reason: string, observed: nat, refused: nat, gaps: bool,
                             firstElapsed: Option<int>, lastElapsed: Option<int>,
                             first: Option<Counters>, last: Option<Counters>, delta: Option<Counters>)

  /** The tracker's fields. `bound` says that a source is still attached. */
  datatype State = State(bound: bool, closed: bool, initialStatus: Status, refusedReason: string, summary: Summary)

  /** What the world answers during one sample: the clock before and after, the reap notification
      before and after, the context before and after, and the source's own answer. */
  datatype World = World(start: int, finish: int, reapedBefore: bool, reapedAfter: bool,
                         noContext: bool, contextBefore: string, contextAfter: string,
                         counters: Counters, reason: string)

  datatype Call = Take(world: World) | Close
  datatype SourceUse = Read | Release

  // ----- Counters -----

  predicate AtLeast(a: Counters, b: Counters) {
    && a.rchar >= b.rchar && a.wchar >= b.wchar && a.syscr >= b.syscr && a.syscw >= b.syscw
    && a.readBytes >= b.readBytes && a.writeBytes >= b.writeBytes && a.cancelled >= b.cancelled
  }

  /** Unsigned subtraction of the machine: it wraps. */
  function Minus(a: uint64, b: uint64): uint64 {
    if a >= b then a - b else a - b + UINT64_LIMIT
  }

  function Delta(a: Counters, b: Counters): Counters {
    Counters(Minus(a.rchar, b.rchar), Minus(a.wchar, b.wchar), Minus(a.syscr, b.syscr), Minus(a.syscw, b.syscw),
             Minus(a.readBytes, b.readBytes), Minus(a.writeBytes, b.writeBytes), Minus(a.cancelled, b.cancelled))
  }

  const REASONS: set<string> := {
    "", "platform_unsupported", "procfs_unavailable", "resolution_unsupported", "process_scope_unavailable",
    "process_namespace_unavailable", "process_identity_unavailable", "process_identity_changed",
    "attribute_shape_unavailable", "attribute_read_unavailable", "attribute_read_limit", "attribute_too_large",
    "counter_profile_unsupported", "not_sampled", "context_canceled", "deadline_exceeded", "context_unavailable",
    "worker_reaped", "observer_closed", "counter_regressed", "elapsed_regressed", "observation_unavailable"
  }

  function Bounded(reason: string): string {
    if reason in REASONS then reason else "observation_unavailable"
  }

  // ----- One call -----

  function Initial(bound: bool, status: Status, reason: string): State {
    var kept := if status == Unsupported || status == Unavailable then status else Unavailable;
    State(bound, false, kept, Bounded(reason),
          Summary(kept, Bounded(reason), 0, 0, false, None, None, None, None, None))
  }

  datatype Verdict = Refuse(status: Status, reason: string, terminal: bool, finished: int) | Accept

  /** The checks before the source is read. */
  function Before(s: State, w: World): Verdict {
    if w.reapedBefore then Refuse(Unavailable, "worker_reaped", false, Max(w.start, 0))
    else if s.closed then Refuse(Unavailable, "observer_closed", false, Max(w.start, 0))
    else if !s.bound then Refuse(s.initialStatus, s.refusedReason, false, Max(w.start, 0))
    else if w.noContext then Refuse(Unavailable, "context_unavailable", true, Max(w.start, 0))
    else if w.contextBefore != "" then Refuse(Unavailable, w.contextBefore, true, Max(w.start, 0))
    else if w.start < 0 || (s.summary.lastElapsed.Some? && w.start < s.summary.lastElapsed.value) then
      Refuse(Regressed, "elapsed_regressed", true, Max(w.start, 0))
    else Accept
  }

  /** The checks after it. */
  function After(s: State, w: World): Verdict {
    if w.reapedAfter then Refuse(Unavailable, "worker_reaped", false, Max(w.finish, 0))
    else if w.contextAfter != "" then Refuse(Unavailable, w.contextAfter, true, Max(w.finish, 0))
    else if w.finish < w.start then Refuse(Regressed, "elapsed_regressed", true, Max(w.finish, 0))
    else if w.reason != "" then Refuse(Unavailable, Bounded(w.reason), true, Max(w.finish, 0))
    else if s.summary.last.Some? && !AtLeast(w.counters, s.summary.last.value) then
      Refuse(Regressed, "counter_regressed", true, Max(w.finish, 0))
    else Accept
  }

  function Judge(s: State, w: World): Verdict {
    if Before(s, w).Refuse? then Before(s, w) else After(s, w)
  }

  function Refused(s: State, v: Verdict): State
    requires v.Refuse?
  {
    var m := s.summary.(refused := s.summary.refused + 1);
    if v.terminal then
      s.(bound := false, initialStatus := v.status, refusedReason := v.reason,
         summary := m.(gaps := true, delta := None, status := v.status, reason := v.reason))
    else s.(summary := m)
  }

  function Admitted(s: State, counters: Counters, finish: int): State {
    var m := s.summary;
    var first := if m.first.None? then counters else m.first.value;
    s.(summary := m.(
         status := Observed, reason := "sampled_prefix_only", observed := m.observed + 1,
         first := Some(first), firstElapsed := if m.first.None? then Some(finish) else m.firstElapsed,
         last := Some(counters), lastElapsed := Some(finish),
         delta := if m.gaps then m.delta else Some(Delta(counters, first))))
  }

  function Step(s: State, c: Call): State {
    match c
    case Close => s.(bound := false, closed := true)
    case Take(w) => if Judge(s, w).Refuse? then Refused(s, Judge(s, w)) else Admitted(s, w.counters, w.finish)
  }

  function Output(s: State, w: World): Sample {
    match Judge(s, w)
    case Refuse(status, reason, _, finished) => Sample(status, reason, Max(w.start, 0), finished, None)
    case Accept => Sample(Observed, "sequential_kernel_accounting", Max(w.start, 0), Max(w.finish, 0), Some(w.counters))
  }

  /** What a call does with the attached source. */
  function Uses(s: State, c: Call): seq<SourceUse> {
    match c
    case Close => if s.bound then [Release] else []
    case Take(w) =>
      (if Before(s, w).Accept? then [Read] else []) +
      (if Judge(s, w).Refuse? && Judge(s, w).terminal then [Release] else [])
  }

  // ----- The tracker object -----

  /** The source may be read and closed only while it is open, which is what callers must show. It
      remembers what was done with it. */
  class Source {
    var open: bool
    ghost var log: seq<SourceUse>

    constructor ()
      ensures open && log == []
    {
      open, log := true, [];
    }

    method ReadCounters(w: World) returns (counters: Counters, reason: string)
      requires open
      modifies this`log
      ensures counters == w.counters && reason == w.reason && log == old(log) + [Read]
    {
      log := log + [Read];
      return w.counters, w.reason;
    }

    method CloseSource()
      requires open
      modifies this
      ensures !open && log == old(log) + [Release]
    {
      open, log := false, log + [Release];
    }
  }

  class Tracker {
    var source: Source?
    var closed: bool
    var initialStatus: Status
    var refusedReason: string
    var summary: Summary

    ghost predicate Valid()
      reads this, source
    {
      source != null ==> source.open
    }

    function Contents(): State
      reads this
    {
      State(source != null, closed, initialStatus, refusedReason, summary)
    }

    constructor (source: Source?, status: Status, reason: string)
      requires source != null ==> source.open
      ensures Valid() && this.source == source && Contents() == Initial(source != null, status, reason)
    {
      this.source := source;
      closed := false;
      var kept := if status != Unsupported && status != Unavailable then Unavailable else status;
      initialStatus, refusedReason := kept, Bounded(reason);
      summary := Summary(kept, Bounded(reason), 0, 0, false, None, None, None, None, None);
    }

    /** What has been done with the source that the tracker held before: exactly these uses, and it
        is closed if the tracker no longer holds it. */
    twostate predicate Used(held: Source?, uses: seq<SourceUse>)
      reads this, held
    {
      held != null ==> held.log == old(held.log) + uses && if source == null then !held.open else source == held
    }

    method Refuse(w: World, finished: int, status: Status, reason: string, terminal: bool) returns (out: Sample)
      requires Valid()
      modifies this, source
      ensures Valid() && Used(old(source), if terminal then [Release] else [])
      ensures Contents() == old(Refused(Contents(), Verdict.Refuse(status, reason, terminal, finished)))
      ensures out == Sample(status, reason, Max(w.start, 0), finished, None)
    {
      summary := summary.(refused := summary.refused + 1);
      if terminal {
        refusedReason, initialStatus := reason, status;
        summary := summary.(gaps := true, delta := None, status := status, reason := reason);
        if source != null {
          source.CloseSource();
          source := null;
        }
      }
      out := Sample(status, reason, Max(w.start, 0), finished, None);
    }

    method Observe(w: World) returns (out: Sample)
      requires Valid()
      modifies this, source
      ensures Valid()
      ensures Contents() == old(Step(Contents(), Take(w))) && Used(old(source), old(Uses(Contents(), Take(w))))
      ensures out == old(Output(Contents(), w))
    {
      var start := w.start;
      var finished := Max(start, 0);
      if w.reapedBefore {
        out := Refuse(w, finished, Unavailable, "worker_reaped", false);
        return;
      }
      if closed {
        out := Refuse(w, finished, Unavailable, "observer_closed", false);
        return;
      }
      if source == null {
        out := Refuse(w, finished, initialStatus, refusedReason, false);
        return;
      }
      if w.noContext {
        out := Refuse(w, finished, Unavailable, "context_unavailable", true);
        return;
      }
      if w.contextBefore != "" {
        out := Refuse(w, finished, Unavailable, w.contextBefore, true);
        return;
      }
      if start < 0 || (summary.lastElapsed.Some? && start < summary.lastElapsed.value) {
        out := Refuse(w, finished, Regressed, "elapsed_regressed", true);
        return;
      }
      out := Finish(w);
    }

    method Finish(w: World) returns (out: Sample)
      requires Valid() && Before(Contents(), w).Accept?
      modifies this, source
      ensures Valid()
      ensures Contents() == old(Step(Contents(), Take(w))) && Used(old(source), old(Uses(Contents(), Take(w))))
      ensures out == old(Output(Contents(), w))
    {
      var counters, reason := source.ReadCounters(w);
      var finish := w.finish;
      var finished := Max(finish, 0);
      if w.reapedAfter {
        out := Refuse(w, finished, Unavailable, "worker_reaped", false);
        return;
      }
      if w.contextAfter != "" {
        out := Refuse(w, finished, Unavailable, w.contextAfter, true);
        return;
      }
      if finish < w.start {
        out := Refuse(w, finished, Regressed, "elapsed_regressed", true);
        return;
      }
      if reason != "" {
        out := Refuse(w, finished, Unavailable, Bounded(reason), true);
        return;
      }
      if summary.last.Some? && !AtLeast(counters, summary.last.value) {
        out := Refuse(w, finished, Regressed, "counter_regressed", true);
        return;
      }
      out := Sample(Observed, "sequential_kernel_accounting", Max(w.start, 0), finished, Some(counters));
      Admit(counters, finish);
    }

    /** Records an observation. */
    method Admit(counters: Counters, finish: int)
      modifies this`summary
      ensures Contents() == old(Admitted(Contents(), counters, finish))
    {
      summary := summary.(observed := summary.observed + 1);
      if summary.first.None? {
        summary := summary.(first := Some(counters), firstElapsed := Some(finish));
      }
      summary := summary.(last := Some(counters), lastElapsed := Some(finish),
                          status := Observed, reason := "sampled_prefix_only");
      if !summary.gaps {
        summary := summary.(delta := Some(Delta(counters, summary.first.value)));
      }
    }

    method CloseTracker()
      requires Valid()
      modifies this, source
      ensures Valid()
      ensures Contents() == old(Step(Contents(), Close)) && Used(old(source), old(Uses(Contents(), Close)))
    {
      if source != null {
        source.CloseSource();
        source := null;
      }
      closed := true;
    }
  }

  // ----- Runs -----

  function Run(s: State, cs: seq<Call>): State {
    if cs == [] then s else Step(Run(s, cs[..|cs| - 1]), cs[|cs| - 1])
  }

  function UsesOf(s: State, cs: seq<Call>): seq<SourceUse> {
    if cs == [] then [] else
      UsesOf(s, cs[..|cs| - 1]) + Uses(Run(s, cs[..|cs| - 1]), cs[|cs| - 1])
  }

  /** The samples that the run returned. */
  function Outputs(s: State, cs: seq<Call>): seq<Sample> {
    if cs == [] then [] else
      var p, c := cs[..|cs| - 1], cs[|cs| - 1];
      Outputs(s, p) + if c.Take? then [Output(Run(s, p), c.world)] else []
  }

  function ObservedOnly(outs: seq<Sample>): seq<Sample> {
    if outs == [] then [] else
      ObservedOnly(outs[..|outs| - 1]) + if outs[|outs| - 1].status == Observed then [outs[|outs| - 1]] else []
  }

  ghost predicate Ordered(h: seq<Sample>) {
    && (forall i :: 0 <= i < |h| ==>
          h[i].status == Observed && h[i].counters.Some? && 0 <= h[i].started <= h[i].finished)
    && (forall i, j :: 0 <= i < j < |h| ==>
          h[i].finished <= h[j].started && AtLeast(h[j].counters.value, h[i].counters.value))
  }

  /** How the tracker's state reflects the samples it has returned. */
  ghost predicate Tracks(s: State, outs: seq<Sample>) {
    var m, h := s.summary, ObservedOnly(outs);
    && Ordered(h)
    && m.observed == |h| && m.observed + m.refused == |outs|
    && m.first == (if h == [] then None else h[0].counters)
    && m.last == (if h == [] then None else h[|h| - 1].counters)
    && m.firstElapsed == (if h == [] then None else Some(h[0].finished))
    && m.lastElapsed == (if h == [] then None else Some(h[|h| - 1].finished))
    && m.delta == (if h != [] && !m.gaps then Some(Delta(m.last.value, m.first.value)) else None)
    && (s.bound ==> !m.gaps && !s.closed)
    && s.initialStatus != Observed
  }

  lemma ObservedAppend(outs: seq<Sample>, o: Sample)
    ensures ObservedOnly(outs + [o]) == ObservedOnly(outs) + if o.status == Observed then [o] else []
  {
    assert (outs + [o])[..|outs|] == outs;
  }

  lemma OrderedAppend(h: seq<Sample>, o: Sample)
    requires Ordered(h) && o.status == Observed && o.counters.Some? && 0 <= o.started <= o.finished
    requires h != [] ==> h[|h| - 1].finished <= o.started && AtLeast(o.counters.value, h[|h| - 1].counters.value)
    ensures Ordered(h + [o])
  {
    forall i | 0 <= i < |h| ensures h[i].finished <= o.started && AtLeast(o.counters.value, h[i].counters.value) {
      if i < |h| - 1 {
        assert h[i].finished <= h[|h| - 1].started && AtLeast(h[|h| - 1].counters.value, h[i].counters.value);
      }
    }
  }

  lemma RefusedTracks(s: State, outs: seq<Sample>, w: World)
    requires Tracks(s, outs) && Judge(s, w).Refuse?
    ensures Tracks(Refused(s, Judge(s, w)), outs + [Output(s, w)])
  {
    ObservedAppend(outs, Output(s, w));
  }

  lemma AdmittedTracks(s: State, outs: seq<Sample>, w: World)
    requires Tracks(s, outs) && Judge(s, w).Accept?
    ensures Tracks(Admitted(s, w.counters, w.finish), outs + [Output(s, w)])
  {
    ObservedAppend(outs, Output(s, w));
    OrderedAppend(ObservedOnly(outs), Output(s, w));
  }

  lemma TakeTracks(s: State, outs: seq<Sample>, w: World)
    requires Tracks(s, outs)
    ensures Tracks(Step(s, Take(w)), outs + [Output(s, w)])
  {
    if Judge(s, w).Accept? {
      AdmittedTracks(s, outs, w);
    } else {
      RefusedTracks(s, outs, w);
    }
  }

  /** In every run from a fresh tracker: observations are ordered in time and in every counter, the
      counts add up to the calls, the first and last observation are the recorded ones, and the
      delta is there exactly when something was observed and no gap occurred. */
  lemma {:induction false} RunTracks(bound: bool, status: Status, reason: string, cs: seq<Call>)
    ensures Tracks(Run(Initial(bound, status, reason), cs), Outputs(Initial(bound, status, reason), cs))
  {
    var s0 := Initial(bound, status, reason);
    if cs != [] {
      var p, c := cs[..|cs| - 1], cs[|cs| - 1];
      RunTracks(bound, status, reason, p);
      if c.Take? {
        TakeTracks(Run(s0, p), Outputs(s0, p), c.world);
      } else {
        assert Outputs(s0, cs) == Outputs(s0, p);
      }
    }
  }

  // ----- The delta -----

  /** One counter of an observation. */
  function Field(o: Sample, f: nat): uint64
    requires o.counters.Some? && f < 7
  {
    o.counters.value.Fields()[f]
  }

  /** What one counter grew by over the observed steps. */
  function Growth(h: seq<Sample>, f: nat): int
    requires f < 7 && forall i :: 0 <= i < |h| ==> h[i].counters.Some?
  {
    if |h| < 2 then 0 else Growth(h[..|h| - 1], f) + Field(h[|h| - 1], f) - Field(h[|h| - 2], f)
  }

  lemma {:induction false} GrowthTelescopes(h: seq<Sample>, f: nat)
    requires f < 7 && h != [] && forall i :: 0 <= i < |h| ==> h[i].counters.Some?
    ensures Growth(h, f) == Field(h[|h| - 1], f) - Field(h[0], f)
  {
    if |h| >= 2 {
      GrowthTelescopes(h[..|h| - 1], f);
    }
  }

  lemma DeltaIsExact(a: Counters, b: Counters, f: nat)
    requires AtLeast(a, b) && f < 7
    ensures Delta(a, b).Fields()[f] == a.Fields()[f] - b.Fields()[f] >= 0
  {
  }

  /** Without underflow, the reported delta is in every counter the sum of the observed increases. */
  lemma DeltaTelescopes(s: State, outs: seq<Sample>, f: nat)
    requires Tracks(s, outs) && s.summary.delta.Some? && f < 7
    ensures s.summary.delta.value.Fields()[f] == Growth(ObservedOnly(outs), f) >= 0
  {
    var h := ObservedOnly(outs);
    GrowthTelescopes(h, f);
    assert AtLeast(h[|h| - 1].counters.value, h[0].counters.value);
    DeltaIsExact(h[|h| - 1].counters.value, h[0].counters.value, f);
  }

  // ----- Refusal is absorbing, and the source is used with discipline -----

  /** Once the source is gone, every later sample is refused and only the refusal count moves. */
  lemma {:induction false} DetachedStaysDetached(s: State, cs: seq<Call>)
    requires !s.bound
    ensures var t := Run(s, cs);
            && !t.bound && t.summary == s.summary.(refused := t.summary.refused)
            && t.initialStatus == s.initialStatus && t.refusedReason == s.refusedReason
    ensures forall o :: o in Outputs(s, cs) ==> o.counters == None
    ensures UsesOf(s, cs) == []
  {
    if cs != [] {
      DetachedStaysDetached(s, cs[..|cs| - 1]);
    }
  }

  /** A terminal refusal marks the gap, drops the delta and detaches the source for good. */
  lemma TerminalIsAbsorbing(s: State, w: World, cs: seq<Call>)
    requires Judge(s, w).Refuse? && Judge(s, w).terminal
    ensures var t := Run(Step(s, Take(w)), cs);
            && t.summary.gaps && t.summary.delta == None && !t.bound
            && t.summary.status == Judge(s, w).status && t.summary.reason == Judge(s, w).reason
    ensures forall o :: o in Outputs(Step(s, Take(w)), cs) ==> o.counters == None
  {
    DetachedStaysDetached(Step(s, Take(w)), cs);
  }

  lemma UsesShape(s: State, c: Call)
    ensures !s.bound ==> Uses(s, c) == [] && !Step(s, c).bound
    ensures s.bound && Step(s, c).bound ==> Uses(s, c) == [] || Uses(s, c) == [Read]
    ensures s.bound && !Step(s, c).bound ==> Uses(s, c) == [Release] || Uses(s, c) == [Read, Release]
  {
  }

  /** Any number of reads, followed by one release exactly when the source is no longer bound. */
  ghost predicate Disciplined(us: seq<SourceUse>, bound: bool) {
    && (forall i :: 0 <= i < |us| - 1 ==> us[i] == Read)
    && (bound <==> us == [] || us[|us| - 1] == Read)
  }

  lemma DisciplinedAppend(us: seq<SourceUse>, vs: seq<SourceUse>, bound: bool)
    requires Disciplined(us, true)
    requires if bound then vs == [] || vs == [Read] else vs == [Release] || vs == [Read, Release]
    ensures Disciplined(us + vs, bound)
  {
  }

  /** Over any run the source is read some number of times, then released at most once, and never
      touched again; it is released exactly when the tracker has let go of it. */
  lemma {:induction false} SourceDiscipline(s: State, cs: seq<Call>)
    requires s.bound
    ensures Disciplined(UsesOf(s, cs), Run(s, cs).bound)
  {
    if cs != [] {
      var p, c := cs[..|cs| - 1], cs[|cs| - 1];
      SourceDiscipline(s, p);
      UsesShape(Run(s, p), c);
      if Run(s, p).bound {
        DisciplinedAppend(UsesOf(s, p), Uses(Run(s, p), c), Run(s, cs).bound);
      } else {
        assert UsesOf(s, cs) == UsesOf(s, p);
      }
    }
  }

  /** One call. A source that the tracker no longer holds is not touched. */
  method Serve(t: Tracker, c: Call, ghost held: Source?)
    requires t.Valid() && (t.source == null || t.source == held)
    modifies t, t.source
    ensures t.Valid() && t.Contents() == old(Step(t.Contents(), c)) && (t.source == null || t.source == held)
    ensures held != null ==> held.log == old(held.log) + old(Uses(t.Contents(), c))
    ensures held != null && (old(t.source) == null ==> !old(held.open)) ==> (t.source == null ==> !held.open)
  {
    UsesShape(t.Contents(), c);
    match c {
      case Take(w) =>
        var out := t.Observe(w);
      case Close =>
        t.CloseTracker();
    }
  }

  lemma RunNext(s: State, cs: seq<Call>, i: nat)
    requires i < |cs|
    ensures Run(s, cs[..i + 1]) == Step(Run(s, cs[..i]), cs[i])
    ensures forall log: seq<SourceUse> ::
              log + UsesOf(s, cs[..i]) + Uses(Run(s, cs[..i]), cs[i]) == log + UsesOf(s, cs[..i + 1])
  {
    assert cs[..i + 1][..i] == cs[..i];
    forall log: seq<SourceUse>
      ensures log + UsesOf(s, cs[..i]) + Uses(Run(s, cs[..i]), cs[i]) == log + UsesOf(s, cs[..i + 1])
    {
      Grouped(log, UsesOf(s, cs[..i]), Uses(Run(s, cs[..i]), cs[i]));
    }
  }

  lemma Grouped<T>(a: seq<T>, b: seq<T>, c: seq<T>)
    ensures a + b + c == a + (b + c)
  {
  }

  /** A tracker put through any run of calls: its state is that of the run, and what it did with the
      source it held is read it some number of times, release it at most once, exactly when it lets go
      of it, and never touch it again. */
  method Drive(t: Tracker, cs: seq<Call>)
    requires t.Valid()
    modifies t, t.source
    ensures t.Valid() && t.Contents() == old(Run(t.Contents(), cs))
    ensures t.Used(old(t.source), old(UsesOf(t.Contents(), cs)))
    ensures old(t.source) != null && old(t.source.log) == [] ==> Disciplined(old(t.source).log, t.source != null)
  {
    ghost var s, held := t.Contents(), t.source;
    for i := 0 to |cs|
      invariant t.Valid() && t.Contents() == Run(s, cs[..i]) && (t.source == null || t.source == held)
      invariant held != null ==> held.log == old(t.source.log) + UsesOf(s, cs[..i]) && (t.source == null ==> !held.open)
    {
      RunNext(s, cs, i);
      Serve(t, cs[i], held);
    }
    assert cs[..|cs|] == cs;
    if held != null {
      SourceDiscipline(s, cs);
      assert [] + UsesOf(s, cs) == UsesOf(s, cs);
    }
  }
}
