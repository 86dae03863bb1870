/** Greedy wrapping of human-readable prose: the printed lines carry the words of the text, fit
    the width where that is possible at all, and are as few as any other breaking could achieve. */
module Wrapping {

  /** What the standard library decides about characters. */
  datatype Letters = Letters(space: char -> bool, mark: char -> bool)

  /** The first line's prefix, the later lines' continuation and the width to fit. */
  datatype Layout = Layout(prefix: string, continuation: string, width: int) {
    function Lead(line: nat): string {
      if line == 0 then prefix else continuation
    }
  }

  function CharWidth(u: Letters, c: char): nat {
    if u.mark(c) then 0 else if c > '\U{7F}' then 2 else 1
  }

  function Width(u: Letters, s: string): nat {
    if s == "" then 0 else Width(u, s[..|s| - 1]) + CharWidth(u, s[|s| - 1])
  }

  method ProseWidth(u: Letters, s: string) returns (n: nat)
    ensures n == Width(u, s)
  {
    n := 0;
    for i := 0 to |s|
      invariant n == Width(u, s[..i])
    {
      assert s[..i + 1][..i] == s[..i];
      n := n + CharWidth(u, s[i]);
    }
    assert s[..|s|] == s;
  }

  /** The positions of characters that are no marks, and are beyond ASCII if that is asked for. */
  ghost function Standing(u: Letters, s: string, broad: bool): set<int> {
    set i | 0 <= i < |s| && !u.mark(s[i]) && (broad ==> s[i] as int > 127)
  }

  lemma StandingNext(u: Letters, s: string, c: char, broad: bool)
    ensures |Standing(u, s + [c], broad)| ==
            |Standing(u, s, broad)| + if !u.mark(c) && (broad ==> c as int > 127) then 1 else 0
  {
    var before, after := Standing(u, s, broad), Standing(u, s + [c], broad);
    if !u.mark(c) && (broad ==> c as int > 127) {
      assert after == before + {|s|};
    } else {
      assert after == before;
    }
  }

  /** One column for each character that is no mark, and one more for each of these beyond ASCII. */
  lemma {:induction false} WidthExactly(u: Letters, s: string)
    ensures Width(u, s) == |Standing(u, s, false)| + |Standing(u, s, true)|
  {
    if s == "" {
      assert Standing(u, s, false) == {} == Standing(u, s, true);
    } else {
      var p, c := s[..|s| - 1], s[|s| - 1];
      WidthExactly(u, p);
      assert s == p + [c];
      StandingNext(u, p, c, false);
      StandingNext(u, p, c, true);
    }
  }

  // ----- Splitting at white space -----

  function WordLength(u: Letters, s: string): (n: nat)
    ensures n <= |s|
    ensures forall i :: 0 <= i < n ==> !u.space(s[i])
    ensures n == |s| || u.space(s[n])
  {
    if s == "" || u.space(s[0]) then 0 else 1 + WordLength(u, s[1..])
  }

  function Fields(u: Letters, s: string): seq<string> {
    if s == "" then []
    else if u.space(s[0]) then Fields(u, s[1..])
    else [s[..WordLength(u, s)]] + Fields(u, s[WordLength(u, s)..])
  }

  ghost predicate IsWord(u: Letters, w: string) {
    w != "" && forall i :: 0 <= i < |w| ==> !u.space(w[i])
  }

  // ----- Lines, and breakings of a word sequence into lines -----

  /** A division of words over lines: the lines before the last one, and the last one. */
  datatype Breaking = Breaking(full: seq<seq<string>>, last: seq<string>) {
    function Count(): nat { |full| + 1 }
  }

  function Join(ws: seq<string>): string {
    if ws == [] then "" else if |ws| == 1 then ws[0] else Join(ws[..|ws| - 1]) + " " + ws[|ws| - 1]
  }

  function Line(l: Layout, i: nat, ws: seq<string>): string {
    l.Lead(i) + Join(ws)
  }

  function Lines(l: Layout, groups: seq<seq<string>>): seq<string> {
    if groups == [] then [] else
      var n := |groups| - 1;
      Lines(l, groups[..n]) + [Line(l, n, groups[n])]
  }

  function Flatten(groups: seq<seq<string>>): seq<string> {
    if groups == [] then [] else Flatten(groups[..|groups| - 1]) + groups[|groups| - 1]
  }

  ghost predicate Fits(u: Letters, l: Layout, i: nat, g: seq<string>) {
    |g| <= 1 || Width(u, Line(l, i, g)) <= l.width
  }

  ghost predicate FullFits(u: Letters, l: Layout, groups: seq<seq<string>>) {
    forall i :: 0 <= i < |groups| ==> groups[i] != [] && Fits(u, l, i, groups[i])
  }

  /** A breaking of `ws` in which each line fits unless it holds a single word. Only a text
      without words gives a line without words. */
  ghost predicate Feasible(u: Letters, l: Layout, b: Breaking, ws: seq<string>) {
    && Flatten(b.full) + b.last == ws
    && FullFits(u, l, b.full)
    && Fits(u, l, |b.full|, b.last)
    && (b.last == [] ==> b.full == [])
  }

  /** What the loop does with one more word. */
  function Placed(u: Letters, l: Layout, b: Breaking, w: string): Breaking {
    if b.last != [] && Width(u, Line(l, |b.full|, b.last)) + 1 + Width(u, w) > l.width
    then Breaking(b.full + [b.last], [w])
    else Breaking(b.full, b.last + [w])
  }

  /** The breaking that the loop builds, one word at a time. */
  function Greedy(u: Letters, l: Layout, ws: seq<string>): Breaking {
    if ws == [] then Breaking([], []) else Placed(u, l, Greedy(u, l, ws[..|ws| - 1]), ws[|ws| - 1])
  }

  lemma JoinAppend(g: seq<string>, w: string)
    ensures Join(g + [w]) == if g == [] then w else Join(g) + " " + w
  {
    assert (g + [w])[..|g|] == g;
  }

  lemma LinesAppend(l: Layout, gs: seq<seq<string>>, g: seq<string>)
    ensures Lines(l, gs + [g]) == Lines(l, gs) + [Line(l, |gs|, g)]
  {
    assert (gs + [g])[..|gs|] == gs;
  }

  lemma FlattenAppend(gs: seq<seq<string>>, g: seq<string>)
    ensures Flatten(gs + [g]) == Flatten(gs) + g
  {
    assert (gs + [g])[..|gs|] == gs;
  }

  /** The loop's variables stand for the breaking built so far. */
  ghost predicate Prints(l: Layout, b: Breaking, out: seq<string>, line: string, hasWord: bool) {
    && out == Lines(l, b.full)
    && line == Line(l, |b.full|, b.last)
    && hasWord == (b.last != [])
  }

  lemma LineAppend(l: Layout, i: nat, g: seq<string>, w: string)
    ensures Line(l, i, g + [w]) == if g == [] then Line(l, i, g) + w else Line(l, i, g) + " " + w
  {
    JoinAppend(g, w);
    if g == [] {
      assert l.Lead(i) + "" == l.Lead(i);
    } else {
      Associative(l.Lead(i), Join(g), " ", w);
    }
  }

  lemma Associative(a: string, b: string, c: string, d: string)
    ensures a + (b + c + d) == a + b + c + d
  {
  }

  /** What the loop body does to its variables for one word. */
  lemma PrintsPlaced(u: Letters, l: Layout, b: Breaking, out: seq<string>, line: string, hasWord: bool, w: string)
    requires Prints(l, b, out, line, hasWord)
    ensures if hasWord && Width(u, line) + 1 + Width(u, w) > l.width
            then Prints(l, Placed(u, l, b, w), out + [line], l.continuation + w, true)
            else Prints(l, Placed(u, l, b, w), out, if hasWord then line + " " + w else line + w, true)
  {
    if hasWord && Width(u, line) + 1 + Width(u, w) > l.width {
      LinesAppend(l, b.full, b.last);
    } else {
      LineAppend(l, |b.full|, b.last, w);
    }
  }

  /** The loop body: one more word on the line, or on the next one. */
  method PlaceWord(u: Letters, l: Layout, out: seq<string>, line: string, hasWord: bool, word: string,
                   ghost b: Breaking)
    returns (out': seq<string>, line': string)
    requires Prints(l, b, out, line, hasWord)
    ensures Prints(l, Placed(u, l, b, word), out', line', true)
  {
    PrintsPlaced(u, l, b, out, line, hasWord, word);
    var lineWidth := ProseWidth(u, line);
    var wordWidth := ProseWidth(u, word);
    var started := hasWord;
    out', line' := out, line;
    if started && lineWidth + 1 + wordWidth > l.width {
      out', line', started := out' + [line'], l.continuation, false;
    }
    if started {
      line' := line' + " ";
    }
    line' := line' + word;
  }

  lemma GreedyNext(u: Letters, l: Layout, words: seq<string>, i: nat)
    requires i < |words|
    ensures Greedy(u, l, words[..i + 1]) == Placed(u, l, Greedy(u, l, words[..i]), words[i])
  {
    assert words[..i + 1][..i] == words[..i];
  }

  lemma AllPrinted(l: Layout, b: Breaking, out: seq<string>, line: string, hasWord: bool)
    requires Prints(l, b, out, line, hasWord)
    ensures out + [line] == Lines(l, b.full + [b.last])
  {
    LinesAppend(l, b.full, b.last);
  }

  /** The printed lines are those of the greedy breaking. */
  method WriteWrapped(u: Letters, text: string, l: Layout) returns (out: seq<string>)
    ensures var b := Greedy(u, l, Fields(u, text)); out == Lines(l, b.full + [b.last])
  {
    var words := Fields(u, text);
    var line, hasWord := l.prefix, false;
    ghost var b := Breaking([], []);
    out := [];
    NothingPrinted(l);
    for i := 0 to |words|
      invariant b == Greedy(u, l, words[..i])
      invariant Prints(l, b, out, line, hasWord)
    {
      out, line := PlaceWord(u, l, out, line, hasWord, words[i], b);
      hasWord := true;
      GreedyNext(u, l, words, i);
      b := Greedy(u, l, words[..i + 1]);
    }
    assert words[..|words|] == words;
    AllPrinted(l, b, out, line, hasWord);
    out := out + [line];
  }

  lemma NothingPrinted(l: Layout)
    ensures Prints(l, Breaking([], []), [], l.prefix, false)
  {
    assert l.prefix + "" == l.prefix;
  }

  // ----- Widths -----

  lemma {:induction false} WidthConcat(u: Letters, s: string, t: string)
    ensures Width(u, s + t) == Width(u, s) + Width(u, t)
  {
    if t == "" {
      assert s + t == s;
    } else {
      assert (s + t)[..|s + t| - 1] == s + t[..|t| - 1];
      WidthConcat(u, s, t[..|t| - 1]);
    }
  }

  lemma JoinAppendWidth(u: Letters, g: seq<string>, w: string)
    ensures Width(u, Join(g + [w])) == Width(u, Join(g)) + (if g == [] || u.mark(' ') then 0 else 1) + Width(u, w)
  {
    JoinAppend(g, w);
    if g != [] {
      WidthConcat(u, Join(g) + " ", w);
      WidthConcat(u, Join(g), " ");
    }
  }

  /** Dropping leading words never widens a line. */
  lemma {:induction false} SuffixWidth(u: Letters, g: seq<string>, k: nat)
    requires k <= |g|
    ensures Width(u, Join(g[k..])) <= Width(u, Join(g))
  {
    if k < |g| {
      var p, w := g[..|g| - 1], g[|g| - 1];
      SuffixWidth(u, p, k);
      assert g == p + [w] && g[k..] == p[k..] + [w];
      JoinAppendWidth(u, p, w);
      JoinAppendWidth(u, p[k..], w);
    }
  }

  /** The width that the loop compares is the width the line would have. */
  lemma ComparedWidth(u: Letters, l: Layout, i: nat, g: seq<string>, w: string)
    requires !u.mark(' ') && g != []
    ensures Width(u, Line(l, i, g + [w])) == Width(u, Line(l, i, g)) + 1 + Width(u, w)
  {
    JoinAppendWidth(u, g, w);
    WidthConcat(u, l.Lead(i), Join(g + [w]));
    WidthConcat(u, l.Lead(i), Join(g));
  }

  // ----- The greedy breaking is feasible -----

  lemma PlacedFeasible(u: Letters, l: Layout, b: Breaking, p: seq<string>, w: string)
    requires !u.mark(' ') && Feasible(u, l, b, p)
    ensures Feasible(u, l, Placed(u, l, b, w), p + [w])
  {
    if b.last == [] {
      assert b.last + [w] == [w] && Flatten([]) + [w] == p + [w];
    } else if Width(u, Line(l, |b.full|, b.last)) + 1 + Width(u, w) > l.width {
      FlattenAppend(b.full, b.last);
      assert Flatten(b.full + [b.last]) + [w] == p + [w];
      assert FullFits(u, l, b.full + [b.last]);
    } else {
      ComparedWidth(u, l, |b.full|, b.last, w);
      assert Flatten(b.full) + (b.last + [w]) == p + [w];
    }
  }

  lemma {:induction false} GreedyFeasible(u: Letters, l: Layout, ws: seq<string>)
    requires !u.mark(' ')
    ensures Feasible(u, l, Greedy(u, l, ws), ws)
  {
    if ws != [] {
      var p, w := ws[..|ws| - 1], ws[|ws| - 1];
      assert ws == p + [w];
      GreedyFeasible(u, l, p);
      PlacedFeasible(u, l, Greedy(u, l, p), p, w);
    }
  }

  // ----- No feasible breaking is shorter -----

  /** A breaking of at least two words without its final word. */
  function Shortened(b: Breaking): Breaking
    requires |b.last| == 1 ==> b.full != []
    requires b.last != []
  {
    if |b.last| > 1 then Breaking(b.full, b.last[..|b.last| - 1])
    else Breaking(b.full[..|b.full| - 1], b.full[|b.full| - 1])
  }

  lemma FinalWord(b: Breaking, p: seq<string>, w: string)
    requires p != [] && Flatten(b.full) + b.last == p + [w] && (b.last == [] ==> b.full == [])
    ensures b.last != [] && b.last == b.last[..|b.last| - 1] + [w]
    ensures p == Flatten(b.full) + b.last[..|b.last| - 1]
    ensures |b.last| == 1 ==> b.full != [] && Flatten(b.full) == p
  {
    assert Flatten([]) == [];
    var all := Flatten(b.full) + b.last;
    assert all[|p|] == w && all[..|p|] == p;
    assert all[..|p|] == Flatten(b.full) + b.last[..|b.last| - 1];
  }

  lemma ShortenedFeasible(u: Letters, l: Layout, b: Breaking, p: seq<string>, w: string)
    requires !u.mark(' ') && p != [] && Feasible(u, l, b, p + [w])
    ensures b.last != [] && (|b.last| == 1 ==> b.full != [])
    ensures Feasible(u, l, Shortened(b), p)
  {
    FinalWord(b, p, w);
    if |b.last| == 1 {
      var n := |b.full| - 1;
      FlattenAppend(b.full[..n], b.full[n]);
      assert b.full == b.full[..n] + [b.full[n]];
      assert Fits(u, l, n, b.full[n]);
      assert FullFits(u, l, b.full[..n]);
    } else {
      ComparedWidth(u, l, |b.full|, b.last[..|b.last| - 1], w);
    }
  }

  /** With equally many lines the greedy last line is a suffix of the other one's, so a word that
      fits there fits here. */
  lemma ShorterLineFits(u: Letters, l: Layout, p: seq<string>, w: string, mine: Breaking, other: Breaking)
    requires !u.mark(' ') && mine.last != []
    requires Feasible(u, l, mine, p) && Feasible(u, l, other, p + [w]) && |mine.full| == |other.full|
    requires |mine.last| < |other.last|
    ensures Placed(u, l, mine, w) == Breaking(mine.full, mine.last + [w])
  {
    var n, g, h := |mine.full|, mine.last, other.last;
    var k := |h| - (|g| + 1);
    assert h == (p + [w])[|p| + 1 - |h|..] && g == p[|p| - |g|..];
    assert g + [w] == h[k..];
    SuffixWidth(u, h, k);
    ComparedWidth(u, l, n, g, w);
    WidthConcat(u, l.Lead(n), Join(h));
    WidthConcat(u, l.Lead(n), Join(g + [w]));
    assert Fits(u, l, n, h);
  }

  /** Greedy stays ahead: another feasible breaking has at least as many lines, and when it has
      equally many, at least as many words on its last line. */
  lemma {:induction false} StaysAhead(u: Letters, l: Layout, ws: seq<string>, other: Breaking)
    requires !u.mark(' ') && Feasible(u, l, other, ws)
    ensures var mine := Greedy(u, l, ws);
            && mine.Count() <= other.Count()
            && (mine.Count() == other.Count() ==> |mine.last| <= |other.last|)
  {
    if |ws| > 1 {
      var p, w := ws[..|ws| - 1], ws[|ws| - 1];
      assert ws == p + [w];
      ShortenedFeasible(u, l, other, p, w);
      StaysAhead(u, l, p, Shortened(other));
      GreedyFeasible(u, l, p);
      var before := Greedy(u, l, p);
      if |other.last| > 1 && |before.full| == |other.full| {
        ShorterLineFits(u, l, p, w, before, other);
      }
    } else if |ws| == 1 {
      assert ws[..0] == [] && Flatten([]) == [];
    }
  }

  /** The wrapped text is a feasible breaking, and no feasible breaking of its words is shorter. */
  lemma GreedyIsOptimal(u: Letters, l: Layout, text: string, other: Breaking)
    requires !u.mark(' ') && Feasible(u, l, other, Fields(u, text))
    ensures Feasible(u, l, Greedy(u, l, Fields(u, text)), Fields(u, text))
    ensures var b := Greedy(u, l, Fields(u, text));
            |Lines(l, b.full + [b.last])| <= |Lines(l, other.full + [other.last])|
  {
    var b := Greedy(u, l, Fields(u, text));
    GreedyFeasible(u, l, Fields(u, text));
    StaysAhead(u, l, Fields(u, text), other);
    LinesCount(l, b.full + [b.last]);
    LinesCount(l, other.full + [other.last]);
  }

  // ----- Reading the printed text back -----

  function Printed(lines: seq<string>): string {
    if lines == [] then "" else Printed(lines[..|lines| - 1]) + lines[|lines| - 1] + "\n"
  }

  ghost predicate EndsBlank(u: Letters, s: string) {
    s == "" || u.space(s[|s| - 1])
  }

  lemma {:induction false} WordLengthIs(u: Letters, s: string, n: nat)
    requires n <= |s| && (forall i :: 0 <= i < n ==> !u.space(s[i])) && (n == |s| || u.space(s[n]))
    ensures WordLength(u, s) == n
  {
    if n > 0 {
      WordLengthIs(u, s[1..], n - 1);
    }
  }

  lemma {:induction false} FieldsConcat(u: Letters, a: string, b: string)
    requires EndsBlank(u, a)
    ensures Fields(u, a + b) == Fields(u, a) + Fields(u, b)
    decreases |a|
  {
    if a == "" {
      assert a + b == b;
    } else if u.space(a[0]) {
      assert (a + b)[1..] == a[1..] + b;
      FieldsConcat(u, a[1..], b);
    } else {
      var n := WordLength(u, a);
      WordLengthIs(u, a + b, n);
      assert (a + b)[n..] == a[n..] + b && (a + b)[..n] == a[..n];
      FieldsConcat(u, a[n..], b);
    }
  }

  lemma FieldsWord(u: Letters, w: string, c: char)
    requires IsWord(u, w) && u.space(c)
    ensures Fields(u, w + [c]) == [w]
  {
    WordLengthIs(u, w + [c], |w|);
    assert (w + [c])[..|w|] == w && (w + [c])[|w|..] == [c];
    FieldsBlank(u, [c]);
  }

  lemma {:induction false} FieldsAreWords(u: Letters, s: string, i: nat)
    requires i < |Fields(u, s)|
    ensures IsWord(u, Fields(u, s)[i])
    decreases |s|
  {
    if u.space(s[0]) {
      FieldsAreWords(u, s[1..], i);
    } else if i > 0 {
      FieldsAreWords(u, s[WordLength(u, s)..], i - 1);
    }
  }

  lemma {:induction false} FieldsBlank(u: Letters, s: string)
    requires forall i :: 0 <= i < |s| ==> u.space(s[i])
    ensures Fields(u, s) == []
  {
    if s != "" {
      FieldsBlank(u, s[1..]);
    }
  }

  lemma {:induction false} FieldsJoin(u: Letters, g: seq<string>, c: char)
    requires (forall i :: 0 <= i < |g| ==> IsWord(u, g[i])) && u.space(' ') && u.space(c)
    ensures Fields(u, Join(g) + [c]) == g
  {
    if g == [] {
      FieldsBlank(u, [c]);
      assert Join(g) + [c] == [c];
    } else {
      var p, w := g[..|g| - 1], g[|g| - 1];
      assert g == p + [w];
      JoinAppend(p, w);
      FieldsWord(u, w, c);
      if p != [] {
        FieldsJoin(u, p, ' ');
        FieldsConcat(u, Join(p) + " ", w + [c]);
        assert Join(g) + [c] == (Join(p) + " ") + (w + [c]);
      }
    }
  }

  lemma FieldsWhole(u: Letters, w: string)
    requires IsWord(u, w)
    ensures Fields(u, w) == [w]
  {
    WordLengthIs(u, w, |w|);
    assert w[..|w|] == w && w[|w|..] == "";
  }

  /** Joined words are split into these words again. */
  lemma FieldsJoinOnly(u: Letters, g: seq<string>)
    requires (forall i :: 0 <= i < |g| ==> IsWord(u, g[i])) && u.space(' ')
    ensures Fields(u, Join(g)) == g
  {
    if g != [] {
      var p, w := g[..|g| - 1], g[|g| - 1];
      assert g == p + [w];
      JoinAppend(p, w);
      FieldsWhole(u, w);
      if p != [] {
        FieldsJoin(u, p, ' ');
        FieldsConcat(u, Join(p) + " ", w);
        assert Join(g) == (Join(p) + " ") + w;
      }
    }
  }

  lemma FieldsOfLine(u: Letters, earlier: string, lead: string, g: seq<string>)
    requires u.space(' ') && u.space('\n') && EndsBlank(u, earlier) && EndsBlank(u, lead)
    requires forall i :: 0 <= i < |g| ==> IsWord(u, g[i])
    ensures Fields(u, earlier + (lead + Join(g)) + "\n") == Fields(u, earlier) + (Fields(u, lead) + g)
  {
    assert earlier + (lead + Join(g)) + "\n" == earlier + (lead + (Join(g) + "\n"));
    FieldsConcat(u, earlier, lead + (Join(g) + "\n"));
    FieldsConcat(u, lead, Join(g) + "\n");
    FieldsJoin(u, g, '\n');
  }

  ghost predicate WordsOnly(u: Letters, groups: seq<seq<string>>) {
    forall i, j :: 0 <= i < |groups| && 0 <= j < |groups[i]| ==> IsWord(u, groups[i][j])
  }

  lemma {:induction false} FlattenWords(u: Letters, groups: seq<seq<string>>)
    requires forall i :: 0 <= i < |Flatten(groups)| ==> IsWord(u, Flatten(groups)[i])
    ensures WordsOnly(u, groups)
  {
    if groups != [] {
      var gs, g := groups[..|groups| - 1], groups[|groups| - 1];
      assert Flatten(groups) == Flatten(gs) + g;
      forall i | 0 <= i < |g| ensures IsWord(u, g[i]) {
        assert g[i] == Flatten(groups)[|Flatten(gs)| + i];
      }
      forall i | 0 <= i < |Flatten(gs)| ensures IsWord(u, Flatten(gs)[i]) {
        assert Flatten(gs)[i] == Flatten(groups)[i];
      }
      FlattenWords(u, gs);
    }
  }

  ghost predicate BlankLeads(u: Letters, l: Layout) {
    && u.space(' ') && u.space('\n') && EndsBlank(u, l.prefix)
    && forall i :: 0 <= i < |l.continuation| ==> u.space(l.continuation[i])
  }

  /** One more line: its lead and its words follow. */
  lemma FieldsOfNextLine(u: Letters, l: Layout, gs: seq<seq<string>>, g: seq<string>)
    requires BlankLeads(u, l) && forall i :: 0 <= i < |g| ==> IsWord(u, g[i])
    ensures Fields(u, Printed(Lines(l, gs + [g]))) == Fields(u, Printed(Lines(l, gs))) + (Fields(u, l.Lead(|gs|)) + g)
  {
    var earlier := Printed(Lines(l, gs));
    LinesAppend(l, gs, g);
    PrintedAppend(Lines(l, gs), Line(l, |gs|, g));
    LinesCount(l, gs);
    FieldsOfLine(u, earlier, l.Lead(|gs|), g);
  }

  lemma {:induction false} LinesCount(l: Layout, gs: seq<seq<string>>)
    ensures |Lines(l, gs)| == |gs|
  {
    if gs != [] {
      LinesCount(l, gs[..|gs| - 1]);
    }
  }

  lemma {:induction false} FieldsOfLines(u: Letters, l: Layout, groups: seq<seq<string>>)
    requires BlankLeads(u, l) && WordsOnly(u, groups)
    ensures Fields(u, Printed(Lines(l, groups))) == (if groups == [] then [] else Fields(u, l.prefix)) + Flatten(groups)
  {
    if groups != [] {
      var n := |groups| - 1;
      var gs, g := groups[..n], groups[n];
      assert groups == gs + [g];
      FieldsOfNextLine(u, l, gs, g);
      FieldsOfLines(u, l, gs);
      FlattenAppend(gs, g);
      if n > 0 {
        FieldsBlank(u, l.continuation);
        Regrouped(Fields(u, l.prefix), Flatten(gs), g);
      } else {
        Regrouped(Fields(u, l.prefix), [], g);
      }
    }
  }

  lemma Regrouped(a: seq<string>, b: seq<string>, c: seq<string>)
    ensures (a + b) + ([] + c) == a + (b + c)
    ensures [] + (a + c) == a + ([] + c) && ([] + []) + (a + c) == a + ([] + c)
  {
  }

  lemma PrintedAppend(lines: seq<string>, line: string)
    ensures Printed(lines + [line]) == Printed(lines) + line + "\n"
    ensures lines != [] ==> Printed(lines)[|Printed(lines)| - 1] == '\n'
  {
    assert (lines + [line])[..|lines|] == lines;
  }

  /** Splitting the printed text again yields the prefix's own words and then exactly the words of
      the text, in order: wrapping neither drops, repeats, splits nor merges a word. */
  lemma WrappedTextReadsBack(u: Letters, l: Layout, text: string)
    requires !u.mark(' ') && BlankLeads(u, l)
    ensures var b := Greedy(u, l, Fields(u, text));
            Fields(u, Printed(Lines(l, b.full + [b.last]))) == Fields(u, l.prefix) + Fields(u, text)
  {
    var b := Greedy(u, l, Fields(u, text));
    GreedyFeasible(u, l, Fields(u, text));
    FlattenAppend(b.full, b.last);
    forall i | 0 <= i < |Fields(u, text)| ensures IsWord(u, Fields(u, text)[i]) {
      FieldsAreWords(u, text, i);
    }
    FlattenWords(u, b.full + [b.last]);
    FieldsOfLines(u, l, b.full + [b.last]);
  }
}
