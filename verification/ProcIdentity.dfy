/** The process identity in a proc stat line: parsing recovers the process, its parent and its
    start time from every well-formed line, whatever bytes the command name has. A line is a sequence
    of bytes, each written as the character with its number. */
module ProcIdentity {
  import opened Basics
  import opened ProcText
  import F = ByteFields
  import W = Wrapping

  const STAT_LIMIT: int := 4096
  const MAX_PID: int := 0x7FFF_FFFF
  const STATES: string := "RSDTtKWPI"

  datatype Identity = Identity(pid: nat, parent: nat, start: nat)

  /** The first position of `c`, or the length when there is none. */
  function First(s: string, c: char): (i: nat)
    ensures i <= |s| && (i < |s| ==> s[i] == c) && forall j :: 0 <= j < i ==> s[j] != c
  {
    if s == "" || s[0] == c then 0 else
      var i := 1 + First(s[1..], c);
      assert forall j :: 0 < j < i ==> s[j] == s[1..][j - 1];
      i
  }

  /** The last position of `c`, or -1 when there is none. */
  function Last(s: string, c: char): (i: int)
    ensures -1 <= i < |s| && (i >= 0 ==> s[i] == c) && forall j :: i < j < |s| ==> s[j] != c
  {
    if s == "" then -1 else if s[|s| - 1] == c then |s| - 1 else Last(s[..|s| - 1], c)
  }

  function Unsign(f: string): string {
    if f != "" && f[0] == '-' then f[1..] else f
  }

  /** The fields after the command name, and the identity they complete. */
  function StatFields(pid: nat, fields: seq<string>): Option<Identity> {
    if |fields| != 50 || |fields[0]| != 1 || fields[0][0] !in STATES then None
    else if exists i :: 1 <= i < 50 && Unsigned(Unsign(fields[i])).None? then None
    else
      var parent, start := Unsigned(fields[1]), Unsigned(fields[19]);
      if parent.None? || parent.value == 0 || parent.value > MAX_PID || start.None? then None
      else Some(Identity(pid, parent.value, start.value))
  }

  /** The line is complete and not too long, and the parentheses at these positions stand where they may. */
  predicate Framed(data: string, open: int, close: int) {
    && 0 < |data| <= STAT_LIMIT && data[|data| - 1] == '\n'
    && 2 <= open < close && close - open <= 65 && close + 2 < |data| && data[open - 1] == ' ' && data[close + 1] == ' '
  }

  function Pid(text: string): Option<nat> {
    var pid := Unsigned(text);
    if pid.None? || pid.value == 0 || pid.value > MAX_PID then None else pid
  }

  /** The process number and the text after the command name. */
  function StatHead(data: string): Option<(nat, string)> {
    var open, close := First(data, '('), Last(data, ')');
    if !Framed(data, open, close) then None
    else
      var pid := Pid(data[..open - 1]);
      if pid.None? then None else Some((pid.value, data[close + 2..]))
  }

  function StatLine(split: string -> seq<string>, data: string): Option<Identity> {
    var head := StatHead(data);
    if head.None? then None else StatFields(head.value.0, split(head.value.1))
  }

  /** The loop over the numeric fields. */
  method AllNumeric(fields: seq<string>) returns (ok: bool)
    requires fields != []
    ensures ok <==> forall i :: 1 <= i < |fields| ==> Unsigned(Unsign(fields[i])).Some?
  {
    for i := 1 to |fields|
      invariant forall j :: 1 <= j < i ==> Unsigned(Unsign(fields[j])).Some?
    {
      var f := fields[i];
      if f != "" && f[0] == '-' {
        f := f[1..];
      }
      var n := ProcUnsigned(f);
      if n.None? {
        return false;
      }
    }
    ok := true;
  }

  /** What follows the command name. */
  method ParseFields(pid: nat, fields: seq<string>) returns (r: Option<Identity>)
    ensures r == StatFields(pid, fields)
  {
    if |fields| != 50 || |fields[0]| != 1 || fields[0][0] !in STATES {
      return None;
    }
    var numeric := AllNumeric(fields);
    if !numeric {
      return None;
    }
    var parent := ProcUnsigned(fields[1]);
    var start := ProcUnsigned(fields[19]);
    if parent.None? || parent.value == 0 || parent.value > MAX_PID || start.None? {
      return None;
    }
    r := Some(Identity(pid, parent.value, start.value));
  }

  method ParseProcIdentity(split: string -> seq<string>, data: string) returns (r: Option<Identity>)
    ensures r == StatLine(split, data)
  {
    var open, close := First(data, '('), Last(data, ')');
    if !Framed(data, open, close) {
      return None;
    }
    var pid := ProcUnsigned(data[..open - 1]);
    if pid.None? || pid.value == 0 || pid.value > MAX_PID {
      return None;
    }
    r := ParseFields(pid.value, split(data[close + 2..]));
  }

  // ----- Well-formed lines -----

  /** A signed 64-bit magnitude as the kernel prints it. */
  ghost predicate Numeric(f: string) {
    exists n: nat :: n < UINT64_LIMIT && (f == Decimal(n) || f == "-" + Decimal(n))
  }

  ghost predicate FieldsFor(id: Identity, fields: seq<string>) {
    && |fields| == 50 && |fields[0]| == 1 && fields[0][0] in "RSDTtKWPI"
    && (forall i :: 1 <= i < 50 ==> Numeric(fields[i]))
    && fields[1] == Decimal(id.parent) && fields[19] == Decimal(id.start)
    && 0 < id.parent <= 2147483647 && id.start < UINT64_LIMIT
  }

  function StatText(pid: string, comm: string, rest: string): string {
    pid + " (" + comm + ") " + rest
  }

  /** A stat line is the process number, the command name in parentheses, and the further fields. */
  ghost predicate LineFor(split: string -> seq<string>, id: Identity, comm: string, rest: string, data: string) {
    && data == StatText(Decimal(id.pid), comm, rest)
    && 0 < id.pid <= 2147483647 && |comm| <= 64 && |data| <= 4096
    && rest != "" && rest[|rest| - 1] == '\n'
    && FieldsFor(id, split(rest))
  }

  lemma NumericExact(f: string)
    ensures Unsigned(Unsign(f)).Some? <==> Numeric(f)
  {
    if Unsigned(Unsign(f)).Some? {
      var n := Unsigned(Unsign(f)).value;
      UnsignedExact(Unsign(f), n);
      if f != "" && f[0] == '-' {
        assert f == "-" + Decimal(n);
      }
    }
    if Numeric(f) {
      var n: nat :| n < UINT64_LIMIT && (f == Decimal(n) || f == "-" + Decimal(n));
      UnsignedExact(Decimal(n), n);
      assert IsDigit(Decimal(n)[0]);
      assert Unsign(f) == Decimal(n);
    }
  }

  lemma StatFieldsExact(pid: nat, fields: seq<string>, id: Identity)
    ensures StatFields(pid, fields) == Some(id) <==> id.pid == pid && FieldsFor(id, fields)
  {
    forall i | 1 <= i < |fields| ensures Unsigned(Unsign(fields[i])).Some? <==> Numeric(fields[i]) {
      NumericExact(fields[i]);
    }
    if |fields| == 50 {
      UnsignedExact(fields[1], id.parent);
      UnsignedExact(fields[19], id.start);
    }
  }

  /** A splitting into fields that loses no closing parenthesis. */
  ghost predicate Keeps(split: string -> seq<string>) {
    forall s :: ')' in s ==> F.Mentions(split(s), ')')
  }

  lemma NumericPlain(f: string)
    requires Numeric(f)
    ensures ')' !in f
  {
    var n: nat :| n < UINT64_LIMIT && (f == Decimal(n) || f == "-" + Decimal(n));
    forall i | 0 <= i < |Decimal(n)| ensures Decimal(n)[i] != ')' {
      assert IsDigit(Decimal(n)[i]);
    }
  }

  lemma FieldsHaveNone(id: Identity, fields: seq<string>)
    requires FieldsFor(id, fields)
    ensures !F.Mentions(fields, ')')
  {
    forall k | 0 <= k < |fields| ensures ')' !in fields[k] {
      if k > 0 {
        NumericPlain(fields[k]);
      } else {
        assert fields[0][0] != ')';
      }
    }
  }

  lemma RestHasNoParenthesis(split: string -> seq<string>, id: Identity, rest: string)
    requires Keeps(split) && FieldsFor(id, split(rest))
    ensures ')' !in rest
  {
    FieldsHaveNone(id, split(rest));
  }

  /** Where the pieces of a line stand. */
  lemma TextPositions(pid: string, comm: string, rest: string)
    ensures var data, k, c := StatText(pid, comm, rest), |pid|, |pid| + 2 + |comm|;
            && |data| == c + 2 + |rest|
            && data[k] == ' ' && data[k + 1] == '(' && data[c] == ')' && data[c + 1] == ' '
            && data[..k] == pid && data[c + 2..] == rest
  {
  }

  lemma FirstIs(s: string, c: char, i: nat)
    requires i < |s| && s[i] == c && c !in s[..i]
    ensures First(s, c) == i
  {
    assert forall j :: 0 <= j < i ==> s[..i][j] == s[j];
  }

  lemma LastIs(s: string, c: char, i: nat)
    requires i < |s| && s[i] == c && c !in s[i + 1..]
    ensures Last(s, c) == i
  {
    assert forall j :: i < j < |s| ==> s[i + 1..][j - i - 1] == s[j];
  }

  /** Where the parser looks is where the line was put together. */
  lemma Landmarks(pid: string, comm: string, rest: string)
    requires '(' !in pid && ')' !in rest
    ensures var data, k := StatText(pid, comm, rest), |pid|;
            First(data, '(') == k + 1 && Last(data, ')') == k + 2 + |comm|
  {
    var data, k, c := StatText(pid, comm, rest), |pid|, |pid| + 2 + |comm|;
    TextPositions(pid, comm, rest);
    assert data[..k + 1] == data[..k] + [' '];
    FirstIs(data, '(', k + 1);
    assert data[c + 1..] == [' '] + data[c + 2..];
    LastIs(data, ')', c);
  }

  lemma DecimalPlain(n: nat)
    ensures '(' !in Decimal(n) && |Decimal(n)| > 0
  {
    assert forall i :: 0 <= i < |Decimal(n)| ==> IsDigit(Decimal(n)[i]);
  }

  lemma TextHasHead(pid: nat, comm: string, rest: string)
    requires 0 < pid <= MAX_PID && |comm| <= 64 && |StatText(Decimal(pid), comm, rest)| <= STAT_LIMIT
    requires rest != "" && rest[|rest| - 1] == '\n' && ')' !in rest
    ensures StatHead(StatText(Decimal(pid), comm, rest)) == Some((pid, rest))
  {
    var data := StatText(Decimal(pid), comm, rest);
    DecimalPlain(pid);
    TextPositions(Decimal(pid), comm, rest);
    Landmarks(Decimal(pid), comm, rest);
    PidExact(Decimal(pid), pid);
    assert data[|data| - 1] == data[|Decimal(pid)| + 4 + |comm|..][|rest| - 1];
  }

  /** Every well-formed line yields exactly its identity, for any command name of at most 64 bytes. */
  lemma LineIsRecovered(split: string -> seq<string>, id: Identity, comm: string, rest: string, data: string)
    requires Keeps(split) && LineFor(split, id, comm, rest, data)
    ensures StatLine(split, data) == Some(id)
  {
    RestHasNoParenthesis(split, id, rest);
    TextHasHead(id.pid, comm, rest);
    StatFieldsExact(id.pid, split(rest), id);
  }

  lemma PidExact(text: string, pid: nat)
    ensures Pid(text) == Some(pid) <==> 0 < pid <= MAX_PID && text == Decimal(pid)
  {
    UnsignedExact(text, pid);
  }

  lemma HeadIsText(data: string) returns (comm: string)
    requires StatHead(data).Some?
    ensures var head := StatHead(data).value;
            && data == StatText(Decimal(head.0), comm, head.1) && 0 < head.0 <= MAX_PID && |comm| <= 64
               && |data| <= STAT_LIMIT
            && head.1 != "" && head.1[|head.1| - 1] == '\n'
  {
    var open, close := First(data, '('), Last(data, ')');
    comm := data[open + 1..close];
    Reassembled(data, open, close);
    PidExact(data[..open - 1], StatHead(data).value.0);
  }

  /** And nothing else is accepted: an accepted line is the well-formed line of its identity. */
  lemma AcceptedIsWellFormed(split: string -> seq<string>, data: string, id: Identity)
    returns (comm: string, rest: string)
    requires StatLine(split, data) == Some(id)
    ensures LineFor(split, id, comm, rest, data)
  {
    comm := HeadIsText(data);
    rest := StatHead(data).value.1;
    StatFieldsExact(StatHead(data).value.0, split(rest), id);
  }

  lemma Reassembled(data: string, open: nat, close: nat)
    requires 2 <= open < close && close + 2 < |data|
    requires data[open - 1] == ' ' && data[open] == '(' && data[close] == ')' && data[close + 1] == ' '
    ensures data == StatText(data[..open - 1], data[open + 1..close], data[close + 2..])
  {
    assert data[open - 1..open + 1] == " (" && data[close..close + 2] == ") ";
    assert data == data[..open - 1] + data[open - 1..open + 1] + data[open + 1..close] + data[close..close + 2] +
             data[close + 2..];
  }

  lemma StatLineExact(split: string -> seq<string>, data: string, id: Identity)
    requires Keeps(split)
    ensures StatLine(split, data) == Some(id) <==> exists comm, rest :: LineFor(split, id, comm, rest, data)
  {
    if StatLine(split, data) == Some(id) {
      var comm, rest := AcceptedIsWellFormed(split, data, id);
    }
    if exists comm, rest :: LineFor(split, id, comm, rest, data) {
      var comm, rest :| LineFor(split, id, comm, rest, data);
      LineIsRecovered(split, id, comm, rest, data);
    }
  }

  // ----- Lines as the parser splits and the kernel prints them -----

  /** The fields as the library splits them, for any notion of white space without the parenthesis. */
  lemma FieldsKeep(space: int -> bool)
    requires !space(')' as int)
    ensures Keeps(F.Splitter(space))
  {
    forall s | ')' in s ensures F.Mentions(F.Splitter(space)(s), ')') {
      var i :| 0 <= i < |s| && s[i] == ')';
      F.FieldsCover(space, s, i);
    }
  }

  /** A line is accepted with an identity exactly when it is well-formed for that identity. */
  lemma IdentityExact(space: int -> bool, data: string, id: Identity)
    requires !space(')' as int)
    ensures StatLine(F.Splitter(space), data) == Some(id) <==>
              exists comm, rest :: LineFor(F.Splitter(space), id, comm, rest, data)
  {
    FieldsKeep(space);
    StatLineExact(F.Splitter(space), data, id);
  }

  ghost predicate Plain(f: string) {
    f != "" && forall i :: 0 <= i < |f| ==> ' ' < f[i] < '\U{7F}'
  }

  lemma FieldsPlain(id: Identity, fields: seq<string>, i: nat)
    requires FieldsFor(id, fields) && i < 50
    ensures Plain(fields[i])
  {
    if i == 0 {
      assert forall c :: c in STATES ==> ' ' < c < '\U{7F}';
    } else {
      var n: nat :| n < UINT64_LIMIT && (fields[i] == Decimal(n) || fields[i] == "-" + Decimal(n));
      assert forall j :: 0 <= j < |Decimal(n)| ==> IsDigit(Decimal(n)[j]);
    }
  }

  /** What the kernel prints is read back: the process number, any command name of at most 64 bytes in
      parentheses, and the fields with single blanks between them. */
  lemma PrintedIsRecovered(space: int -> bool, id: Identity, comm: string, fields: seq<string>)
    requires !space(')' as int) && space(' ' as int) && space('\n' as int)
    requires forall c :: 0x20 < c < 0x7F ==> !space(c)
    requires FieldsFor(id, fields) && 0 < id.pid <= MAX_PID && |comm| <= 64
    requires |StatText(Decimal(id.pid), comm, W.Join(fields) + "\n")| <= STAT_LIMIT
    ensures StatLine(F.Splitter(space), StatText(Decimal(id.pid), comm, W.Join(fields) + "\n")) == Some(id)
  {
    forall i | 0 <= i < |fields| ensures Plain(fields[i]) {
      FieldsPlain(id, fields, i);
    }
    F.FieldsOfJoined(space, fields);
    FieldsKeep(space);
    var rest := W.Join(fields) + "\n";
    LineIsRecovered(F.Splitter(space), id, comm, rest, StatText(Decimal(id.pid), comm, rest));
  }
}
