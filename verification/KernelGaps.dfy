/** When the tracker reads its source, when it gives it up, and what its reports then say: in terms of
    what happens around a sample, over every run. */
module KernelGaps {
  import opened Basics
  import opened ProcCounters
  import opened KernelIO

  /** The source is read: the worker is not known to be reaped, the tracker is open and has a source,
      there is a context that is not done, and time has not gone back. */
  ghost predicate Reads(s: State, w: World) {
    && !w.reapedBefore && !s.closed && s.bound && !w.noContext && w.contextBefore == ""
    && w.start >= 0 && (s.summary.lastElapsed.Some? ==> w.start >= s.summary.lastElapsed.value)
  }

  /** Some counter is below what it was. */
  ghost predicate Decreased(now: Counters, was: Counters) {
    exists f :: 0 <= f < 7 && now.Fields()[f] < was.Fields()[f]
  }

  /** What ends the sampling for good. Before the read: no context, a context that is done, or time gone
      back. After it, unless the worker was reaped meanwhile: a context that is done, time gone back, a
      failed read, or a counter that decreased. */
  ghost predicate Breaks(s: State, w: World) {
    && !w.reapedBefore && !s.closed && s.bound
    && (!Reads(s, w) || (!w.reapedAfter &&
                         (w.contextAfter != "" || w.finish < w.start || w.reason != "" ||
                          (s.summary.last.Some? && Decreased(w.counters, s.summary.last.value)))))
  }

  lemma AtLeastExactly(now: Counters, was: Counters)
    ensures AtLeast(now, was) <==> !Decreased(now, was)
  {
    if !AtLeast(now, was) {
      assert now.Fields()[0] < was.Fields()[0] || now.Fields()[1] < was.Fields()[1] || now.Fields()[2] < was.Fields()[2]
        || now.Fields()[3] < was.Fields()[3] || now.Fields()[4] < was.Fields()[4] || now.Fields()[5] < was.Fields()[5]
        || now.Fields()[6] < was.Fields()[6];
    }
  }

  lemma JudgedExactly(s: State, w: World)
    ensures Before(s, w).Accept? <==> Reads(s, w)
    ensures Judge(s, w).Refuse? && Judge(s, w).terminal <==> Breaks(s, w)
    ensures Judge(s, w).Accept? <==> Reads(s, w) && !w.reapedAfter && !Breaks(s, w)
  {
    if s.summary.last.Some? {
      AtLeastExactly(w.counters, s.summary.last.value);
    }
  }

  /** One sample, exactly. The source is read at most once and given up exactly when sampling ends. A
      sample is observed exactly when the read went well and the worker was not reaped; every other one
      has no counters. Ending leaves a gap, no delta, and the status and reason of this sample. */
  lemma SampleExactly(s: State, w: World)
    ensures Uses(s, Take(w)) == (if Reads(s, w) then [Read] else []) + (if Breaks(s, w) then [Release] else [])
    ensures var t, out := Step(s, Take(w)), Output(s, w);
            && t.bound == (s.bound && !Breaks(s, w)) && t.closed == s.closed
            && t.summary.gaps == (s.summary.gaps || Breaks(s, w))
            && (Breaks(s, w) ==>
                  t.summary.delta == None && t.summary.status == out.status && t.summary.reason == out.reason)
    ensures var t, out := Step(s, Take(w)), Output(s, w);
            if Reads(s, w) && !w.reapedAfter && !Breaks(s, w)
            then out == Sample(Observed, "sequential_kernel_accounting", w.start, w.finish, Some(w.counters))
                 && t.summary.observed == s.summary.observed + 1 && t.summary.refused == s.summary.refused
            else out.counters == None && t.summary.observed == s.summary.observed
                 && t.summary.refused == s.summary.refused + 1
  {
    JudgedExactly(s, w);
  }

  /** Who is to blame: a reading that went back in time or in a counter is called regressed, and the reason
      tells which of the two; nothing else is. */
  lemma RegressionExactly(s: State, w: World)
    requires s.initialStatus != Regressed
    ensures Output(s, w).status == Regressed <==>
            || (!w.reapedBefore && !s.closed && s.bound && !w.noContext && w.contextBefore == "" && !Reads(s, w))
            || (Reads(s, w) && !w.reapedAfter && w.contextAfter == "" && w.finish < w.start)
            || (Reads(s, w) && !w.reapedAfter && w.contextAfter == "" && w.finish >= w.start && w.reason == ""
                && s.summary.last.Some? && Decreased(w.counters, s.summary.last.value))
    ensures Output(s, w).status == Regressed ==>
              Output(s, w).reason ==
              if Reads(s, w) && w.finish >= w.start then "counter_regressed" else "elapsed_regressed"
  {
    if s.summary.last.Some? {
      AtLeastExactly(w.counters, s.summary.last.value);
    }
  }

  ghost predicate Says(out: Sample, status: Status, reason: string) {
    out.status == status && out.reason == reason && out.counters == None
  }

  /** What every refused sample says, in the order in which things are found out, and when it began and
      ended: a reaped worker first, a closed tracker, a missing source, then the context, time, the read
      and the counters. */
  lemma RefusalExactly(s: State, w: World)
    ensures var out := Output(s, w);
            && out.started == (if w.start < 0 then 0 else w.start)
            && out.finished == var e := if Reads(s, w) then w.finish else w.start; if e < 0 then 0 else e
    ensures w.reapedBefore ==> Says(Output(s, w), Unavailable, "worker_reaped")
    ensures !w.reapedBefore && s.closed ==> Says(Output(s, w), Unavailable, "observer_closed")
    ensures !w.reapedBefore && !s.closed && !s.bound ==> Says(Output(s, w), s.initialStatus, s.refusedReason)
    ensures !w.reapedBefore && !s.closed && s.bound ==>
              && (w.noContext ==> Says(Output(s, w), Unavailable, "context_unavailable"))
              && (!w.noContext && w.contextBefore != "" ==> Says(Output(s, w), Unavailable, w.contextBefore))
    ensures Reads(s, w) && w.reapedAfter ==> Says(Output(s, w), Unavailable, "worker_reaped")
    ensures Reads(s, w) && !w.reapedAfter && w.contextAfter != "" ==> Says(Output(s, w), Unavailable, w.contextAfter)
    ensures Reads(s, w) && !w.reapedAfter && w.contextAfter == "" && w.finish >= w.start && w.reason != "" ==>
              Says(Output(s, w), Unavailable, Bounded(w.reason))
  {
  }

  /** The sampling ended at this call of the run. */
  ghost predicate EndsAt(s: State, cs: seq<Call>, i: nat) {
    i < |cs| && cs[i].Take? && Breaks(Run(s, cs[..i]), cs[i].world)
  }

  lemma EndsAtPrefix(s: State, cs: seq<Call>, i: nat)
    requires i < |cs| - 1
    ensures EndsAt(s, cs[..|cs| - 1], i) <==> EndsAt(s, cs, i)
  {
    assert cs[..|cs| - 1][..i] == cs[..i] && cs[..|cs| - 1][i] == cs[i];
  }

  /** Some call of the run ended the sampling. */
  ghost predicate Ends(s: State, cs: seq<Call>) {
    exists i :: EndsAt(s, cs, i)
  }

  lemma EndsOnce(s: State, cs: seq<Call>)
    requires cs != []
    ensures Ends(s, cs) <==> Ends(s, cs[..|cs| - 1]) || EndsAt(s, cs, |cs| - 1)
  {
    var p := cs[..|cs| - 1];
    forall i: nat | i < |p| ensures EndsAt(s, p, i) <==> EndsAt(s, cs, i) {
      EndsAtPrefix(s, cs, i);
    }
    if Ends(s, cs) {
      var i: nat :| EndsAt(s, cs, i);
      assert i < |p| ==> EndsAt(s, p, i);
    }
    if Ends(s, p) {
      var i: nat :| EndsAt(s, p, i);
      assert EndsAt(s, cs, i);
    }
  }

  /** A tracker is closed by the first call that closes it, for good. */
  lemma {:induction false} ClosedExactly(s: State, cs: seq<Call>)
    ensures Run(s, cs).closed <==> s.closed || Close in cs
  {
    if cs != [] {
      ClosedExactly(s, cs[..|cs| - 1]);
      assert cs == cs[..|cs| - 1] + [cs[|cs| - 1]];
    }
  }

  /** Over a run: there is a gap exactly if some call ended the sampling, and the source is still held
      exactly if none did and the tracker was not closed. */
  lemma {:induction false} GapsExactly(s: State, cs: seq<Call>)
    requires s.bound && !s.summary.gaps
    ensures Run(s, cs).summary.gaps <==> Ends(s, cs)
    ensures Run(s, cs).bound <==> Close !in cs && !Ends(s, cs)
  {
    if cs != [] {
      var p, c := cs[..|cs| - 1], cs[|cs| - 1];
      GapsExactly(s, p);
      assert cs == p + [c];
      EndsOnce(s, cs);
      if c.Take? {
        SampleExactly(Run(s, p), c.world);
      }
    }
  }

  /** A fresh tracker's delta exists exactly if something was observed and nothing ended the sampling. */
  lemma DeltaExactly(status: Status, reason: string, cs: seq<Call>)
    ensures var s := Initial(true, status, reason);
            var t := Run(s, cs);
            t.summary.delta.Some? <==> t.summary.observed > 0 && !Ends(s, cs)
  {
    var s := Initial(true, status, reason);
    GapsExactly(s, cs);
    RunTracks(true, status, reason, cs);
  }

  /** A fresh tracker has an empty summary, which names its status, unavailable unless it is unsupported,
      and a bounded reason, and so does every refusal for want of a source. */
  lemma FreshTracker(bound: bool, status: Status, reason: string)
    ensures var s := Initial(bound, status, reason);
            && s.bound == bound && !s.closed && s.summary.observed == 0 == s.summary.refused && !s.summary.gaps
            && s.summary.status == (if status == Unsupported then Unsupported else Unavailable)
            && s.initialStatus == s.summary.status && s.refusedReason == s.summary.reason
            && s.summary.reason == Bounded(reason)
  {
  }

  /** Why there is nothing to read. */
  const UNREADABLE: set<string> := {
    "platform_unsupported", "procfs_unavailable", "resolution_unsupported", "process_scope_unavailable",
    "process_namespace_unavailable", "process_identity_unavailable", "process_identity_changed",
    "attribute_shape_unavailable", "attribute_read_unavailable", "attribute_read_limit", "attribute_too_large",
    "counter_profile_unsupported"
  }

  /** Why a sample was not taken, or not believed. */
  const UNSAMPLED: set<string> := {
    "", "not_sampled", "context_canceled", "deadline_exceeded", "context_unavailable", "worker_reaped",
    "observer_closed", "counter_regressed", "elapsed_regressed", "observation_unavailable"
  }

  /** Reasons that may be shown. */
  ghost predicate Documented(reason: string) {
    || reason in UNREADABLE || reason in UNSAMPLED
    || reason == "sampled_prefix_only" || reason == "sequential_kernel_accounting"
  }

  /** A reason from outside is shown as it is exactly if it is one of these. */
  lemma BoundedExactly(reason: string)
    ensures Bounded(reason) ==
            if reason in UNREADABLE || reason in UNSAMPLED then reason else "observation_unavailable"
  {
    assert REASONS == UNREADABLE + UNSAMPLED;
  }

  ghost predicate Reports(s: State) {
    Documented(s.refusedReason) && Documented(s.summary.reason)
  }

  const CONTEXT_REASONS: set<string> := {"", "context_canceled", "deadline_exceeded"}

  /** A context is done for one of two reasons. */
  ghost predicate PlainContext(c: Call) {
    c.Take? ==> c.world.contextBefore in CONTEXT_REASONS && c.world.contextAfter in CONTEXT_REASONS
  }

  lemma SampleDocumented(s: State, w: World)
    requires Reports(s) && PlainContext(Take(w))
    ensures Reports(Step(s, Take(w))) && Documented(Output(s, w).reason)
  {
    assert Documented(w.contextBefore) && Documented(w.contextAfter);
    BoundedExactly(w.reason);
  }

  /** Whatever the source gives as its reason: over every run only documented reasons are shown. */
  lemma {:induction false} ReasonsDocumented(bound: bool, status: Status, reason: string, cs: seq<Call>)
    requires forall c :: c in cs ==> PlainContext(c)
    ensures var s := Initial(bound, status, reason);
            Reports(Run(s, cs)) && forall out :: out in Outputs(s, cs) ==> Documented(out.reason)
  {
    var s := Initial(bound, status, reason);
    BoundedExactly(reason);
    if cs != [] {
      var p, c := cs[..|cs| - 1], cs[|cs| - 1];
      assert cs == p + [c];
      ReasonsDocumented(bound, status, reason, p);
      assert PlainContext(c);
      if c.Take? {
        SampleDocumented(Run(s, p), c.world);
      }
    }
  }
}
