/** What a lawful review means for its environment: the input as it is, the context as it is, and the
    writes as they end. */
module HashReviewSafety {
  import opened Basics
  import opened ReviewInput
  import opened ReviewWorld
  import opened HashReview
  import W = Wrapping

  /** A context stays cancelled. */
  ghost predicate Sticky(cancels: nat -> bool) {
    forall i, j :: 0 <= i <= j && cancels(i) ==> cancels(j)
  }

  predicate SaysSave(u: W.Letters, item: Input) {
    Command(u, item) == Some("save")
  }

  /** An item that ends the review: no completed line of bounded length, or "quit". */
  predicate EndsReview(u: W.Letters, item: Input) {
    Command(u, item).None? || Command(u, item) == Some("quit")
  }

  /** Before a save nothing ended the review and no write failed. */
  lemma OpenBeforeSave(u: W.Letters, pieces: Preview -> nat, trace: seq<Event>, saveChoice: bool, n: nat)
    requires Lawful(u, pieces, trace, saveChoice) && n < |trace| && trace[n].Save?
    ensures saveChoice && Open(u, trace[..n]) && !Broken(trace[..n])
  {
  }

  lemma ContinuesBefore(u: W.Letters, trace: seq<Event>, n: nat, i: nat)
    requires n <= |trace| && Open(u, trace[..n]) && i < n
    ensures Continues(u, trace[i])
  {
    assert trace[..n][i] == trace[i];
  }

  /** A review saves at most once, and only when saving was opted into. */
  lemma SavesAtMostOnce(u: W.Letters, pieces: Preview -> nat, trace: seq<Event>, saveChoice: bool, i: nat, j: nat)
    requires Lawful(u, pieces, trace, saveChoice) && i <= j < |trace| && trace[i].Save? && trace[j].Save?
    ensures i == j && saveChoice
  {
    OpenBeforeSave(u, pieces, trace, saveChoice, j);
    if i < j {
      ContinuesBefore(u, trace, j, i);
    }
  }

  /** The six events before a save. */
  lemma BeforeSave(u: W.Letters, pieces: Preview -> nat, trace: seq<Event>, saveChoice: bool, n: nat)
    returns (item: Input)
    requires Lawful(u, pieces, trace, saveChoice) && n < |trace| && trace[n].Save?
    ensures n >= 6 && SaysSave(u, item) && trace[n - 6..n] == Exchange(item)
  {
    var before := trace[..n];
    assert Warranted(u, pieces, before, trace[n].choice);
    item :| Answered(u, before, item, "save");
    assert before[n - 6..] == trace[n - 6..n];
  }

  /** Nothing is saved once the context is cancelled: a save lies before any cancellation, even one
      that no check has seen. */
  lemma CancelledNeverSaves(env: Env, input: seq<Input>, u: W.Letters, pieces: Preview -> nat, trace: seq<Event>,
                            saveChoice: bool, n: nat, k: nat)
    requires Honest(env, input, trace) && Lawful(u, pieces, trace, saveChoice) && Sticky(env.cancels)
    requires n < |trace| && trace[n].Save? && env.cancels(k)
    ensures n <= k
  {
    var item := BeforeSave(u, pieces, trace, saveChoice, n);
    assert trace[n - 1] == trace[n - 6..n][5] == Checked(false);
    assert Answers(env, n - 1, trace[n - 1]);
  }

  lemma FailsLater(env: Env, input: seq<Input>, trace: seq<Event>, n: nat, k: nat)
    requires Honest(env, input, trace) && n < |trace| && !Broken(trace[..n]) && trace[n].Save?
    requires k < |trace| && trace[k].Wrote? && env.fails(k)
    ensures n < k
  {
    assert Answers(env, k, trace[k]);
    if k < n {
      FailedBefore(trace, n, k);
    }
  }

  /** Nothing is saved after a write has failed. */
  lemma FailedNeverSaves(env: Env, input: seq<Input>, u: W.Letters, pieces: Preview -> nat, trace: seq<Event>,
                         saveChoice: bool, n: nat, k: nat)
    requires Honest(env, input, trace) && Lawful(u, pieces, trace, saveChoice)
    requires n < |trace| && trace[n].Save? && k < |trace| && trace[k].Wrote? && env.fails(k)
    ensures n < k
  {
    OpenBeforeSave(u, pieces, trace, saveChoice, n);
    FailsLater(env, input, trace, n, k);
  }

  lemma FailedBefore(trace: seq<Event>, n: nat, k: nat)
    requires k < n <= |trace| && Failed(trace[k])
    ensures Broken(trace[..n])
  {
    assert trace[..n][k] == trace[k];
  }

  lemma {:induction false} ItemsPrefix(trace: seq<Event>, n: nat)
    requires n <= |trace|
    ensures Items(trace[..n]) <= Items(trace)
  {
    if n == |trace| {
      assert trace[..n] == trace;
    } else {
      ItemsPrefix(trace[..|trace| - 1], n);
      assert trace[..|trace| - 1][..n] == trace[..n];
    }
  }

  lemma {:induction false} ItemsContinue(u: W.Letters, trace: seq<Event>, i: nat)
    requires Open(u, trace) && i < |Items(trace)|
    ensures !EndsReview(u, Items(trace)[i])
  {
    var p := trace[..|trace| - 1];
    if i < |Items(p)| {
      ItemsContinue(u, p, i);
    } else {
      assert Continues(u, trace[|trace| - 1]);
    }
  }

  lemma LastThree<T>(s: seq<T>)
    requires |s| >= 3
    ensures s == s[..|s| - 3] + [s[|s| - 3]] + [s[|s| - 2]] + [s[|s| - 1]]
  {
  }

  lemma ItemsExchange(before: seq<Event>, item: Input)
    requires |before| >= 6 && before[|before| - 6..] == Exchange(item)
    ensures Items(before) != [] && Items(before)[|Items(before)| - 1] == item
  {
    var n := |before|;
    var early := before[..n - 3];
    assert before[n - 3] == Exchange(item)[3] && before[n - 2] == Exchange(item)[4]
           && before[n - 1] == Exchange(item)[5];
    LastThree(before);
    ItemsAppend(early, Took(item));
    ItemsAppend(early + [Took(item)], Checked(false));
    ItemsAppend(early + [Took(item)] + [Checked(false)], Checked(false));
  }

  lemma AskedBeforeSave(u: W.Letters, pieces: Preview -> nat, trace: seq<Event>, saveChoice: bool, n: nat)
    requires Lawful(u, pieces, trace, saveChoice) && n < |trace| && trace[n].Save?
    ensures var items := Items(trace[..n]); items != [] && SaysSave(u, items[|items| - 1])
  {
    var item := BeforeSave(u, pieces, trace, saveChoice, n);
    assert trace[..n][n - 6..] == trace[n - 6..n];
    ItemsExchange(trace[..n], item);
  }

  /** A save needs a completed line of the real input that says "save", reached through lines none of
      which ends the review. */
  lemma SaveNeedsLine(env: Env, input: seq<Input>, u: W.Letters, pieces: Preview -> nat, trace: seq<Event>,
                      saveChoice: bool, n: nat) returns (k: nat)
    requires Honest(env, input, trace) && Lawful(u, pieces, trace, saveChoice) && n < |trace| && trace[n].Save?
    ensures k < |input| && SaysSave(u, input[k]) && forall i :: 0 <= i < k ==> !EndsReview(u, input[i])
  {
    var items := Items(trace[..n]);
    AskedBeforeSave(u, pieces, trace, saveChoice, n);
    OpenBeforeSave(u, pieces, trace, saveChoice, n);
    ItemsPrefix(trace, n);
    k := |items| - 1;
    assert items <= input;
    forall i | 0 <= i < k ensures !EndsReview(u, input[i]) {
      ItemsContinue(u, trace[..n], i);
    }
  }

  lemma EndingIsNoSave(u: W.Letters, item: Input)
    requires EndsReview(u, item)
    ensures !SaysSave(u, item)
  {
    assert "quit"[0] == 'q' && "save"[0] == 's';
  }

  lemma SavePastEnd(u: W.Letters, input: seq<Input>, m: nat, i: nat)
    requires i < |input| && SaysSave(u, input[i]) && m <= |input| && (m < |input| ==> EndsReview(u, input[m]))
    requires forall j :: 0 <= j < m ==> !SaysSave(u, input[j])
    ensures m < i
  {
    if m < |input| {
      EndingIsNoSave(u, input[m]);
    }
  }

  /** Input that ends the review, or ends itself, before it says "save" never saves: whatever the
      environment answers. */
  lemma EndedNeverSaves(env: Env, input: seq<Input>, u: W.Letters, pieces: Preview -> nat, trace: seq<Event>,
                        saveChoice: bool, m: nat, n: nat)
    requires Honest(env, input, trace) && Lawful(u, pieces, trace, saveChoice)
    requires m <= |input| && (m < |input| ==> EndsReview(u, input[m]))
             && (forall i :: 0 <= i < m ==> !SaysSave(u, input[i]))
    requires n < |trace|
    ensures !trace[n].Save?
  {
    forall i | 0 <= i < |input| && SaysSave(u, input[i]) ensures m < i {
      SavePastEnd(u, input, m, i);
    }
    if trace[n].Save? {
      var k := SaveNeedsLine(env, input, u, pieces, trace, saveChoice, n);
    }
  }
}
