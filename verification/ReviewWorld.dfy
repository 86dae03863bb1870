/** What the guided hash review meets: a store, a writer, a line reader and a context. Every
    primitive takes its answer from an arbitrary environment and leaves exactly one event, so the
    time of an event is its position in the trace. */
module ReviewWorld {
  import opened Basics

  datatype Member = Member(workID: string, evidence: string, repeated: bool, conflicting: bool)
  datatype Group = Group(logicalBytes: int, sha256: string, members: seq<Member>)
  datatype Report = Report(storeID: string, selectionID: string, inventoryID: string, groups: seq<Group>)
  /** A previewed role: the saved member and what the preview adds to it. */
  datatype Role = Role(member: Member, detail: string)
  datatype Preview = Preview(storeID: string, selectionID: string, inventoryID: string,
                             logicalBytes: int, sha256: string, keeper: Role, copies: seq<Role>)

  /** What a preview is asked for by. */
  datatype Request = Request(selectionID: string, keeperID: string, copyIDs: seq<string>)

  /** A line with its newline, text that ends without one, or a failing read. */
  datatype Input = Line(text: string) | Unfinished(text: string) | ReadFault

  /** What is written: some piece of a preview, or anything else. */
  datatype Text = Prose | Piece(preview: Preview, index: nat)

  datatype Event =
    | Loaded(report: Option<Report>)
    | Fetched(request: Request, preview: Option<Preview>)
    | Wrote(text: Text, ok: bool)
    | Checked(cancelled: bool)
    | Took(item: Input)
    | Ended
    | Save(choice: Preview, ok: bool)

  /** The answers, by the time at which they are asked for. */
  datatype Env = Env(cancels: nat -> bool, fails: nat -> bool, saves: nat -> bool,
                     reports: nat -> Option<Report>, previews: (nat, Request) -> Option<Preview>)

  predicate Answers(env: Env, time: nat, e: Event) {
    match e
    case Loaded(r) => r == env.reports(time)
    case Fetched(q, p) => p == env.previews(time, q)
    case Wrote(_, ok) => ok == !env.fails(time)
    case Checked(c) => c == env.cancels(time)
    case Save(_, ok) => ok == env.saves(time)
    case _ => true
  }

  /** The input items consumed so far. */
  ghost function Items(trace: seq<Event>): seq<Input> {
    if trace == [] then [] else
      var e := trace[|trace| - 1];
      Items(trace[..|trace| - 1]) + if e.Took? then [e.item] else []
  }

  lemma ItemsAppend(trace: seq<Event>, e: Event)
    ensures Items(trace + [e]) == Items(trace) + if e.Took? then [e.item] else []
  {
    assert (trace + [e])[..|trace|] == trace;
  }

  /** Every event carries the environment's answer, and the input is consumed in order. */
  ghost predicate Honest(env: Env, input: seq<Input>, trace: seq<Event>) {
    && (forall k :: 0 <= k < |trace| ==> Answers(env, k, trace[k]))
    && Items(trace) <= input
  }

  lemma HonestAppend(env: Env, input: seq<Input>, trace: seq<Event>, e: Event)
    requires Honest(env, input, trace) && Answers(env, |trace|, e) && !e.Took?
    ensures Honest(env, input, trace + [e]) && Items(trace + [e]) == Items(trace)
  {
    ItemsAppend(trace, e);
  }

  class World {
    const env: Env
    const input: seq<Input>
    var cursor: nat
    var clock: nat
    ghost var trace: seq<Event>

    constructor (env: Env, input: seq<Input>)
      ensures Valid() && this.env == env && this.input == input && trace == []
    {
      this.env, this.input, cursor, clock, trace := env, input, 0, 0, [];
    }

    ghost predicate Valid()
      reads this
    {
      && clock == |trace| && cursor <= |input|
      && Honest(env, input, trace) && Items(trace) == input[..cursor]
    }

    function Left(): int
      reads this
    {
      |input| - cursor
    }

    /** The input that is left. */
    ghost function Rest(): seq<Input>
      reads this
    {
      if cursor <= |input| then input[cursor..] else []
    }

    /** One more event, which takes nothing from the input. */
    method Note(ghost e: Event)
      requires Valid() && Answers(env, clock, e) && !e.Took?
      modifies this`clock, this`trace
      ensures Valid() && trace == old(trace) + [e]
    {
      HonestAppend(env, input, trace, e);
      clock, trace := clock + 1, trace + [e];
    }

    /** The context's state now. */
    method Cancelled() returns (c: bool)
      requires Valid()
      modifies this
      ensures Valid() && Left() == old(Left()) && trace == old(trace) + [Checked(c)] && c == env.cancels(old(clock))
    {
      c := env.cancels(clock);
      Note(Checked(c));
    }

    method Write(text: Text) returns (ok: bool)
      requires Valid()
      modifies this
      ensures Valid() && Left() == old(Left()) && trace == old(trace) + [Wrote(text, ok)]
              && ok == !env.fails(old(clock))
    {
      ok := !env.fails(clock);
      Note(Wrote(text, ok));
    }

    /** The next item of the input, or none at its end. */
    method Take() returns (r: Option<Input>)
      requires Valid()
      modifies this
      ensures Valid()
      ensures r.None? ==> trace == old(trace) + [Ended] && Left() == old(Left()) == 0
      ensures r.Some? ==> trace == old(trace) + [Took(r.value)] && Left() == old(Left()) - 1
                          && old(Rest()) == [r.value] + Rest()
    {
      if cursor == |input| {
        Note(Ended);
        return None;
      }
      var item := input[cursor];
      ItemsAppend(trace, Took(item));
      assert input[..cursor + 1] == input[..cursor] + [item];
      cursor, clock, trace := cursor + 1, clock + 1, trace + [Took(item)];
      r := Some(item);
    }

    method LoadGroups() returns (r: Option<Report>)
      requires Valid()
      modifies this
      ensures Valid() && Left() == old(Left()) && trace == old(trace) + [Loaded(r)] && r == env.reports(old(clock))
    {
      r := env.reports(clock);
      Note(Loaded(r));
    }

    method LoadPreview(q: Request) returns (p: Option<Preview>)
      requires Valid()
      modifies this
      ensures Valid() && Left() == old(Left()) && trace == old(trace) + [Fetched(q, p)]
      ensures p == env.previews(old(clock), q)
    {
      p := env.previews(clock, q);
      Note(Fetched(q, p));
    }

    method SaveChoice(p: Preview) returns (ok: bool)
      requires Valid()
      modifies this
      ensures Valid() && Left() == old(Left()) && trace == old(trace) + [Save(p, ok)]
    {
      ok := env.saves(clock);
      Note(Save(p, ok));
    }
  }
}
