/** The row numbers the user types: one to twenty canonical decimals between one and twenty,
    separated by blanks or commas. */
module ReviewInput {
  import opened Basics
  import T = ProcText
  import W = Wrapping

  const TARGET_LIMIT: int := 20
  const INPUT_LIMIT: int := 4096

  function CommasBlanked(line: string): string {
    seq(|line|, i requires 0 <= i < |line| => if line[i] == ',' then ' ' else line[i])
  }

  /** Atoi that must print back to the same text and lie in the range of rows. */
  function RowNumber(field: string): Option<nat> {
    var n := T.Unsigned(field);
    if n.Some? && 1 <= n.value <= TARGET_LIMIT then n else None
  }

  function ParseNumbers(u: W.Letters, line: string): Option<seq<nat>> {
    var fields := W.Fields(u, CommasBlanked(line));
    if fields == [] || |fields| > TARGET_LIMIT then None else MapAll(RowNumber, fields)
  }

  lemma RowNumberExact(field: string, n: nat)
    ensures RowNumber(field) == Some(n) <==> 1 <= n <= TARGET_LIMIT && field == T.Decimal(n)
  {
    T.UnsignedExact(field, n);
  }

  function Printed(ns: seq<nat>): seq<string> {
    seq(|ns|, i requires 0 <= i < |ns| => T.Decimal(ns[i]))
  }

  ghost predicate Rows(ns: seq<nat>) {
    1 <= |ns| <= 20 && forall i :: 0 <= i < |ns| ==> 1 <= ns[i] <= 20
  }

  /** The loop over the fields. */
  method RowNumbers(fields: seq<string>) returns (r: Option<seq<nat>>)
    ensures r == MapAll(RowNumber, fields)
  {
    ghost var f := RowNumber;
    MapAllShape(f, fields);
    var numbers: seq<nat> := [];
    for i := 0 to |fields|
      invariant |numbers| == i && forall j :: 0 <= j < i ==> f(fields[j]) == Some(numbers[j])
    {
      var n := T.ProcUnsigned(fields[i]);
      assert f(fields[i]) == RowNumber(fields[i]);
      if n.None? || n.value < 1 || n.value > TARGET_LIMIT {
        return None;
      }
      numbers := numbers + [n.value];
    }
    MapAllIs(f, fields, numbers);
    r := Some(numbers);
  }

  method ParseReviewNumbers(u: W.Letters, line: string) returns (r: Option<seq<nat>>)
    ensures r == ParseNumbers(u, line)
    ensures r.Some? ==> Rows(r.value)
  {
    var fields := W.Fields(u, CommasBlanked(line));
    if fields == [] || |fields| > TARGET_LIMIT {
      return None;
    }
    r := RowNumbers(fields);
    if r.Some? {
      ParseNumbersExact(u, line, r.value);
    }
  }

  /** A line is accepted exactly when its fields are the canonical decimals of one to twenty row
      numbers, and it then stands for those numbers in the order typed. */
  lemma ParseNumbersExact(u: W.Letters, line: string, ns: seq<nat>)
    ensures ParseNumbers(u, line) == Some(ns) <==> Rows(ns) && W.Fields(u, CommasBlanked(line)) == Printed(ns)
  {
    var fields := W.Fields(u, CommasBlanked(line));
    MapAllShape(RowNumber, fields);
    if ParseNumbers(u, line) == Some(ns) {
      forall i | 0 <= i < |ns| ensures 1 <= ns[i] <= TARGET_LIMIT && fields[i] == T.Decimal(ns[i]) {
        RowNumberExact(fields[i], ns[i]);
      }
      assert fields == Printed(ns);
    }
    if Rows(ns) && fields == Printed(ns) {
      forall i | 0 <= i < |fields| ensures RowNumber(fields[i]) == Some(ns[i]) {
        RowNumberExact(fields[i], ns[i]);
      }
      MapAllIs(RowNumber, fields, ns);
    }
  }

  /** Row numbers separated by commas or blanks. */
  function Listed(rows: seq<string>, commas: seq<bool>): string
    requires |commas| == |rows|
  {
    if rows == [] then "" else if |rows| == 1 then rows[0]
    else Listed(rows[..|rows| - 1], commas[..|rows| - 1]) + (if commas[|rows| - 1] then "," else " ")
         + rows[|rows| - 1]
  }

  lemma BlankedConcat(a: string, b: string)
    ensures CommasBlanked(a + b) == CommasBlanked(a) + CommasBlanked(b)
  {
  }

  lemma {:induction false} ListedJoins(rows: seq<string>, commas: seq<bool>)
    requires |commas| == |rows| && forall i :: 0 <= i < |rows| ==> ',' !in rows[i]
    ensures CommasBlanked(Listed(rows, commas)) == W.Join(rows)
  {
    if rows != [] {
      var n := |rows| - 1;
      assert CommasBlanked(rows[n]) == rows[n];
      if n > 0 {
        ListedJoins(rows[..n], commas[..n]);
        BlankedConcat(Listed(rows[..n], commas[..n]), if commas[n] then "," else " ");
        BlankedConcat(Listed(rows[..n], commas[..n]) + (if commas[n] then "," else " "), rows[n]);
        assert CommasBlanked(if commas[n] then "," else " ") == " ";
      }
    }
  }

  lemma PrintedIsWord(u: W.Letters, ns: seq<nat>, i: nat)
    requires i < |ns| && forall c: char :: '0' <= c <= '9' ==> !u.space(c)
    ensures W.IsWord(u, Printed(ns)[i]) && ',' !in Printed(ns)[i]
  {
    var w := T.Decimal(ns[i]);
    forall k | 0 <= k < |w| ensures !u.space(w[k]) && w[k] != ',' {
      assert T.IsDigit(w[k]);
    }
  }

  /** Printed row numbers with commas or blanks between them, in any mixture, are read back. */
  lemma ListedIsRead(u: W.Letters, ns: seq<nat>, commas: seq<bool>)
    requires Rows(ns) && |commas| == |ns|
    requires u.space(' ') && forall c: char :: '0' <= c <= '9' ==> !u.space(c)
    ensures ParseNumbers(u, Listed(Printed(ns), commas)) == Some(ns)
  {
    var rows := Printed(ns);
    forall i | 0 <= i < |rows| ensures W.IsWord(u, rows[i]) && ',' !in rows[i] {
      PrintedIsWord(u, ns, i);
    }
    ListedJoins(rows, commas);
    W.FieldsJoinOnly(u, rows);
    ParseNumbersExact(u, Listed(rows, commas), ns);
  }
}
