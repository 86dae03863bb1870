/** Exact grammars of the proc files: canonical unsigned decimals and the seven-line counter file.
    A character stands for one byte of the file. */
module ProcText {

  import opened Basics

  const DATA_LIMIT: int := 1024

  // ----- Canonical decimals -----

  function Digit(n: nat): char
    requires n < 10
  {
    '0' + n as char
  }

  function DigitValue(c: char): int {
    c as int - '0' as int
  }

  predicate IsDigit(c: char) {
    '0' <= c <= '9'
  }

  function Decimal(n: nat): (s: string)
    ensures s != "" && (forall i :: 0 <= i < |s| ==> IsDigit(s[i]))
    ensures |s| > 1 ==> s[0] != '0'
    ensures n > 0 ==> s[0] != '0'
  {
    if n < 10 then [Digit(n)] else Decimal(n / 10) + [Digit(n % 10)]
  }

  /** What strconv makes of a string of digits, before its range check. */
  function Value(s: string): (n: nat)
    requires forall i :: 0 <= i < |s| ==> IsDigit(s[i])
  {
    if s == "" then 0 else
      assert IsDigit(s[|s| - 1]);
      Value(s[..|s| - 1]) * 10 + DigitValue(s[|s| - 1])
  }

  function Unsigned(s: string): Option<nat> {
    if s == "" || |s| > 20 || (|s| > 1 && s[0] == '0') then None
    else if exists i :: 0 <= i < |s| && !IsDigit(s[i]) then None
    else if Value(s) >= UINT64_LIMIT then None
    else Some(Value(s))
  }

  method ProcUnsigned(s: string) returns (r: Option<nat>)
    ensures r == Unsigned(s)
  {
    if s == "" || |s| > 20 || (|s| > 1 && s[0] == '0') {
      return None;
    }
    var n := 0;
    for i := 0 to |s|
      invariant forall j :: 0 <= j < i ==> IsDigit(s[j])
      invariant n == Value(s[..i])
    {
      if s[i] < '0' || s[i] > '9' {
        return None;
      }
      assert s[..i + 1][..i] == s[..i];
      n := n * 10 + DigitValue(s[i]);
    }
    assert s[..|s|] == s;
    r := if n >= UINT64_LIMIT then None else Some(n);
  }

  lemma {:induction false} ValueOfDecimal(n: nat)
    ensures Value(Decimal(n)) == n
  {
    if n >= 10 {
      ValueOfDecimal(n / 10);
      assert Decimal(n)[..|Decimal(n)| - 1] == Decimal(n / 10);
    } else {
      assert Decimal(n)[..0] == "";
    }
  }

  lemma TenTimes(v: nat, d: nat)
    requires v > 0 && d < 10
    ensures Decimal(v * 10 + d) == Decimal(v) + [Digit(d)]
  {
    assert (v * 10 + d) / 10 == v && (v * 10 + d) % 10 == d;
  }

  lemma {:induction false} DecimalOfValue(s: string)
    requires s != "" && (forall i :: 0 <= i < |s| ==> IsDigit(s[i])) && (|s| > 1 ==> s[0] != '0')
    ensures Decimal(Value(s)) == s
    ensures s[0] != '0' ==> Value(s) > 0
  {
    var p, c := s[..|s| - 1], s[|s| - 1];
    assert IsDigit(c) && s == p + [c];
    DigitInverse(c);
    if p == "" {
      assert Value(s) == DigitValue(c);
    } else {
      DecimalOfValue(p);
      assert Value(s) == Value(p) * 10 + DigitValue(c) && Value(p) > 0;
      TenTimes(Value(p), DigitValue(c));
    }
  }

  lemma DigitInverse(c: char)
    requires IsDigit(c)
    ensures 0 <= DigitValue(c) < 10 && Digit(DigitValue(c)) == c
    ensures c != '0' ==> DigitValue(c) > 0
  {
  }

  function Pow10(k: nat): nat { if k == 0 then 1 else 10 * Pow10(k - 1) }

  lemma {:induction false} DecimalLength(n: nat, k: nat)
    requires k > 0 && n < Pow10(k)
    ensures |Decimal(n)| <= k
  {
    if n >= 10 {
      assert Pow10(k) == 10 * Pow10(k - 1);
      DecimalLength(n / 10, k - 1);
    }
  }

  lemma TwentyDigits()
    ensures UINT64_LIMIT <= Pow10(20)
  {
    assert Pow10(4) == 10000;
    assert Pow10(8) == 100000000;
    assert Pow10(12) == 1000000000000;
    assert Pow10(16) == 10000000000000000;
    assert Pow10(20) == 100000000000000000000;
  }

  /** The accepted numbers are exactly the canonical decimals of 64-bit values. */
  lemma UnsignedExact(s: string, n: nat)
    ensures Unsigned(s) == Some(n) <==> n <= 18446744073709551615 && s == Decimal(n)
  {
    if n < UINT64_LIMIT && s == Decimal(n) {
      ValueOfDecimal(n);
      TwentyDigits();
      DecimalLength(n, 20);
    }
    if Unsigned(s) == Some(n) {
      DecimalOfValue(s);
    }
  }

  // ----- The counter file -----

  const NAMES: set<string> :=
    {"rchar", "wchar", "syscr", "syscw", "read_bytes", "write_bytes", "cancelled_write_bytes"}

  /** The fields by name, as they are filled in. */
  type Table = map<string, nat>

  function ReadLine(names: set<string>, line: string): Option<(string, nat)> {
    var parts := Split(line, ": ");
    if |parts| == 2 && parts[0] in names && Unsigned(parts[1]).Some?
    then Some((parts[0], Unsigned(parts[1]).value)) else None
  }

  type Entry<N> = Option<(N, nat)>

  /** Each entry must name a field that no earlier one has consumed. */
  function Collect<N(==)>(entries: seq<Entry<N>>): Option<map<N, nat>> {
    if entries == [] then Some(map[]) else
      var before, entry := Collect(entries[..|entries| - 1]), entries[|entries| - 1];
      if before.None? || entry.None? || entry.value.0 in before.value then None
      else Some(before.value[entry.value.0 := entry.value.1])
  }

  function Entries(names: set<string>, lines: seq<string>): seq<Entry<string>> {
    seq(|lines|, i requires 0 <= i < |lines| => ReadLine(names, lines[i]))
  }

  function ProcIO(names: set<string>, data: string): Option<Table> {
    if data == "" || |data| > DATA_LIMIT || data[|data| - 1] != '\n' then None
    else ReadBody(names, data[..|data| - 1])
  }

  function ReadBody(names: set<string>, body: string): Option<Table> {
    var lines := Split(body, "\n");
    if |lines| != 7 then None else Collect(Entries(names, lines))
  }

  /** The loop over the lines, with the table of fields that are still open. */
  method ParseProcIO(data: string) returns (r: Option<Table>)
    ensures r == ProcIO(NAMES, data)
  {
    if data == "" || |data| > DATA_LIMIT || data[|data| - 1] != '\n' {
      return None;
    }
    var lines := Split(data[..|data| - 1], "\n");
    if |lines| != 7 {
      return None;
    }
    ghost var entries := Entries(NAMES, lines);
    var c: Table, open := map[], NAMES;
    for i := 0 to |lines|
      invariant Collect(entries[..i]) == Some(c)
      invariant open == NAMES - c.Keys
    {
      CollectOneMore(entries, i);
      var parts := Split(lines[i], ": ");
      var n := None;
      if |parts| == 2 && parts[0] in open {
        n := ProcUnsigned(parts[1]);
      }
      if n.None? {
        RefusedLater(entries, i + 1);
        return None;
      }
      c, open := c[parts[0] := n.value], open - {parts[0]};
    }
    assert entries[..|lines|] == entries;
    r := Some(c);
  }

  lemma CollectOneMore<N>(entries: seq<Entry<N>>, i: nat)
    requires i < |entries| && Collect(entries[..i]).Some?
    ensures var c, entry := Collect(entries[..i]).value, entries[i];
            Collect(entries[..i + 1]) ==
            if entry.Some? && entry.value.0 !in c then Some(c[entry.value.0 := entry.value.1]) else None
  {
    assert entries[..i + 1][..i] == entries[..i];
  }

  lemma {:induction false} RefusedLater<N>(entries: seq<Entry<N>>, i: nat)
    requires i <= |entries| && Collect(entries[..i]).None?
    ensures Collect(entries).None?
    decreases |entries| - i
  {
    if i == |entries| {
      assert entries[..i] == entries;
    } else {
      assert entries[..i + 1][..i] == entries[..i];
      RefusedLater(entries, i + 1);
    }
  }

  // ----- The accepted language -----

  function Line(name: string, n: nat): string {
    name + ": " + Decimal(n)
  }

  function Joined(lines: seq<string>): string
    requires lines != []
  {
    if |lines| == 1 then lines[0] else lines[0] + "\n" + Joined(lines[1..])
  }

  function LinesOf(order: seq<string>, c: Table): seq<string>
    requires forall i :: 0 <= i < |order| ==> order[i] in c
  {
    seq(|order|, i requires 0 <= i < |order| => Line(order[i], c[order[i]]))
  }

  /** The file with one line for each counter, in the given order of names. */
  function Printed(order: seq<string>, c: Table): string
    requires order != [] && forall i :: 0 <= i < |order| ==> order[i] in c
  {
    Joined(LinesOf(order, c)) + "\n"
  }

  ghost predicate Distinct<N>(order: seq<N>) {
    forall i, j :: 0 <= i < j < |order| ==> order[i] != order[j]
  }

  /** Each of the names once. */
  ghost predicate Permutation<N>(order: seq<N>, names: set<N>) {
    Distinct(order) && |order| == |names| && forall i :: 0 <= i < |order| ==> order[i] in names
  }

  predicate Complete(c: Table, names: set<string>) {
    c.Keys == names && forall f :: f in c ==> c[f] < UINT64_LIMIT
  }

  /** What the seven names have in common. */
  ghost predicate PlainNames(names: set<string>) {
    |names| == 7 && forall name :: name in names ==> ':' !in name && '\n' !in name && |name| <= 21
  }

  lemma SevenNames()
    ensures |NAMES| == 7
  {
  }

  lemma NameIsPlain(name: string)
    requires name in NAMES
    ensures ':' !in name && '\n' !in name && |name| <= 21
  {
  }

  lemma NamesArePlain()
    ensures PlainNames(NAMES)
  {
    SevenNames();
    forall name | name in NAMES ensures ':' !in name && '\n' !in name && |name| <= 21 {
      NameIsPlain(name);
    }
  }

  lemma ReadLineExact(names: set<string>, line: string, name: string, n: nat)
    requires PlainNames(names)
    ensures ReadLine(names, line) == Some((name, n)) <==> name in names && n < UINT64_LIMIT && line == Line(name, n)
  {
    if name in names && n < UINT64_LIMIT && line == Line(name, n) {
      SplitAt(name, ": ", Decimal(n));
      SplitWhole(Decimal(n), ": ");
      UnsignedExact(Decimal(n), n);
    }
    if ReadLine(names, line) == Some((name, n)) {
      SplitTwo(line, ": ");
      UnsignedExact(Split(line, ": ")[1], n);
    }
  }

  ghost predicate SpelledAt<N>(entry: Entry<N>, name: N, c: map<N, nat>) {
    name in c && entry == Some((name, c[name]))
  }

  /** The entries spell out the counters of `c` in the order of distinct names `order`. */
  ghost predicate Spelled<N(!new)>(entries: seq<Entry<N>>, order: seq<N>, c: map<N, nat>) {
    && |order| == |entries| && Distinct(order)
    && (forall i :: 0 <= i < |order| ==> SpelledAt(entries[i], order[i], c))
    && (forall f :: f in c ==> f in order)
  }

  lemma {:induction false} CollectSound<N(!new)>(entries: seq<Entry<N>>) returns (order: seq<N>)
    requires Collect(entries).Some?
    ensures Spelled(entries, order, Collect(entries).value)
  {
    if entries == [] {
      order := [];
    } else {
      var n := |entries| - 1;
      var before := CollectSound(entries[..n]);
      var c, c' := Collect(entries[..n]).value, Collect(entries).value;
      var name := entries[n].value.0;
      order := before + [name];
      forall i | 0 <= i < n ensures SpelledAt(entries[i], order[i], c') && order[i] != name {
        assert SpelledAt(entries[..n][i], before[i], c);
      }
    }
  }

  lemma {:induction false} CollectComplete<N(!new)>(entries: seq<Entry<N>>, order: seq<N>, c: map<N, nat>)
    requires Spelled(entries, order, c)
    ensures Collect(entries) == Some(c)
  {
    if entries == [] {
      assert c == map[];
    } else {
      var n := |entries| - 1;
      var rest := c - {order[n]};
      forall i | 0 <= i < n ensures SpelledAt(entries[..n][i], order[..n][i], rest) {
        assert SpelledAt(entries[i], order[i], c);
      }
      assert order == order[..n] + [order[n]];
      CollectComplete(entries[..n], order[..n], rest);
      assert SpelledAt(entries[n], order[n], c);
      assert c == rest[order[n] := c[order[n]]];
    }
  }

  // ----- Lines of the file -----

  lemma {:induction false} JoinedSplit(find: string -> nat, s: string)
    requires Cuts(find, "\n")
    ensures Joined(SplitWith(find, 1, s)) == s
    decreases |s|
  {
    var i := find(s);
    if i + 1 <= |s| {
      JoinedSplit(find, s[i + 1..]);
      JoinedPrepend(s[..i], SplitWith(find, 1, s[i + 1..]));
    }
  }

  lemma JoinedPrepend(line: string, lines: seq<string>)
    requires lines != []
    ensures Joined([line] + lines) == line + "\n" + Joined(lines)
  {
    assert ([line] + lines)[1..] == lines;
  }

  lemma {:induction false} SplitJoined(lines: seq<string>)
    requires lines != [] && forall i :: 0 <= i < |lines| ==> '\n' !in lines[i]
    ensures Split(Joined(lines), "\n") == lines
  {
    if |lines| == 1 {
      SplitWhole(lines[0], "\n");
    } else {
      SplitJoined(lines[1..]);
      SplitAt(lines[0], "\n", Joined(lines[1..]));
      assert lines == [lines[0]] + lines[1..];
    }
  }

  lemma {:induction false} JoinedLength(lines: seq<string>, most: nat)
    requires lines != [] && forall i :: 0 <= i < |lines| ==> |lines[i]| < most
    ensures |Joined(lines)| < |lines| * most
  {
    if |lines| > 1 {
      JoinedLength(lines[1..], most);
      assert |lines| * most == most + (|lines| - 1) * most;
    }
  }

  lemma LineIsPlain(names: set<string>, name: string, n: nat)
    requires PlainNames(names) && name in names && n < UINT64_LIMIT
    ensures '\n' !in Line(name, n) && |Line(name, n)| < 44
  {
    TwentyDigits();
    DecimalLength(n, 20);
  }

  // ----- The theorem -----

  lemma {:induction false} DistinctCount<N>(order: seq<N>)
    requires Distinct(order)
    ensures |set f | f in order| == |order|
  {
    if order != [] {
      var p, f := order[..|order| - 1], order[|order| - 1];
      DistinctCount(p);
      assert order == p + [f];
      assert (set g | g in order) == (set g | g in p) + {f};
    }
  }

  /** Pigeonhole: distinct names, as many as there are names, are all the names. */
  lemma AllNamesOccur<N(!new)>(order: seq<N>, names: set<N>)
    requires Permutation(order, names)
    ensures forall f :: f in order <==> f in names
  {
    var seen := set f | f in order;
    DistinctCount(order);
    assert seen <= names;
    assert |names - seen| == |names| - |seen| == 0;
    assert names - seen == {};
    forall f | f in names ensures f in order {
      assert f !in names - seen;
    }
  }

  lemma PrintedSpells(names: set<string>, order: seq<string>, c: Table)
    requires PlainNames(names) && Permutation(order, names) && Complete(c, names)
    ensures Spelled(Entries(names, LinesOf(order, c)), order, c)
  {
    AllNamesOccur(order, names);
    forall i | 0 <= i < |order| ensures ReadLine(names, LinesOf(order, c)[i]) == Some((order[i], c[order[i]])) {
      ReadLineExact(names, LinesOf(order, c)[i], order[i], c[order[i]]);
    }
  }

  /** A printed permutation of the counter lines parses to exactly its counters. */
  lemma PrintedIsAccepted(names: set<string>, order: seq<string>, c: Table)
    requires PlainNames(names) && Permutation(order, names) && Complete(c, names)
    ensures ProcIO(names, Printed(order, c)) == Some(c)
  {
    PrintedShape(names, order, c);
    PrintedSpells(names, order, c);
    CollectComplete(Entries(names, LinesOf(order, c)), order, c);
  }

  lemma PrintedShape(names: set<string>, order: seq<string>, c: Table)
    requires PlainNames(names) && Permutation(order, names) && Complete(c, names)
    ensures var data := Printed(order, c);
            && 0 < |data| <= DATA_LIMIT && data[|data| - 1] == '\n'
            && Split(data[..|data| - 1], "\n") == LinesOf(order, c)
  {
    var lines := LinesOf(order, c);
    forall i | 0 <= i < |lines| ensures '\n' !in lines[i] && |lines[i]| < 44 {
      LineIsPlain(names, order[i], c[order[i]]);
    }
    JoinedLength(lines, 44);
    SplitJoined(lines);
    assert Printed(order, c)[..|Printed(order, c)| - 1] == Joined(lines);
  }

  lemma SpelledLines(names: set<string>, lines: seq<string>, order: seq<string>, c: Table)
    requires PlainNames(names) && Spelled(Entries(names, lines), order, c)
    ensures forall i :: 0 <= i < |order| ==>
              order[i] in names && order[i] in c && c[order[i]] < UINT64_LIMIT
                && lines[i] == Line(order[i], c[order[i]])
  {
    forall i | 0 <= i < |order|
      ensures order[i] in names && order[i] in c && c[order[i]] < UINT64_LIMIT
              && lines[i] == Line(order[i], c[order[i]])
    {
      assert SpelledAt(Entries(names, lines)[i], order[i], c);
      ReadLineExact(names, lines[i], order[i], c[order[i]]);
    }
  }

  lemma SpelledIsPrinted(names: set<string>, lines: seq<string>, order: seq<string>, c: Table)
    requires PlainNames(names) && Spelled(Entries(names, lines), order, c) && |lines| == 7
    ensures Permutation(order, names) && Complete(c, names) && lines == LinesOf(order, c)
  {
    SpelledLines(names, lines, order, c);
    AllNamesOccur(order, names);
    assert c.Keys == names;
  }

  lemma AcceptedBody(names: set<string>, body: string, c: Table) returns (order: seq<string>)
    requires PlainNames(names) && ReadBody(names, body) == Some(c)
    ensures Permutation(order, names) && Complete(c, names) && body + "\n" == Printed(order, c)
  {
    order := CollectSound(Entries(names, Split(body, "\n")));
    SpelledIsPrinted(names, Split(body, "\n"), order, c);
    FinderCuts("\n");
    JoinedSplit(Finder("\n"), body);
  }

  lemma AcceptedIsPrinted(names: set<string>, data: string, c: Table) returns (order: seq<string>)
    requires PlainNames(names) && ProcIO(names, data) == Some(c)
    ensures Permutation(order, names) && Complete(c, names) && data == Printed(order, c)
  {
    order := AcceptedBody(names, data[..|data| - 1], c);
    FinalNewline(data);
  }

  lemma FinalNewline(data: string)
    requires data != "" && data[|data| - 1] == '\n'
    ensures data == data[..|data| - 1] + "\n"
  {
  }

  ghost predicate InLanguage(names: set<string>, data: string, c: Table) {
    Complete(c, names) && exists order :: Permutation(order, names) && order != [] && data == Printed(order, c)
  }

  lemma LanguageExact(names: set<string>, data: string, c: Table)
    requires PlainNames(names)
    ensures ProcIO(names, data) == Some(c) <==> InLanguage(names, data, c)
  {
    if ProcIO(names, data) == Some(c) {
      var order := AcceptedIsPrinted(names, data, c);
    }
    if InLanguage(names, data, c) {
      var order :| Permutation(order, names) && order != [] && data == Printed(order, c);
      PrintedIsAccepted(names, order, c);
    }
  }

  /** The accepted files are exactly the printed permutations of the seven counter lines, and each
      of them yields exactly the counters that were printed. */
  lemma ProcIOExact(data: string, c: Table)
    ensures ProcIO(NAMES, data) == Some(c) <==> InLanguage(NAMES, data, c)
  {
    NamesArePlain();
    LanguageExact(NAMES, data, c);
  }
}
