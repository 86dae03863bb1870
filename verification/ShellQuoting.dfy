/** Quoting a byte string for a shell command line, and a reader of quoted words after sections
    2.2.2, 2.2.3 and 2.2.4 of the POSIX.1-2024 Shell Command Language to read it back. */
module ShellQuoting {

  import opened Basics
  import opened Utf8

  const QUOTE: byte := 0x27
  const DOUBLE: byte := 0x22
  const DOLLAR: byte := 0x24
  const BACKSLASH: byte := 0x5C
  const ZERO: byte := 0x30

  /** Valid UTF-8 made of printable characters only. */
  predicate Printable(isPrint: int -> bool, s: seq<byte>) {
    s == [] ||
    var n := RuneLength(s);
    n > 0 && isPrint(Rune(s)) && Printable(isPrint, s[n..])
  }

  // ----- The quoting -----

  /** Each quote is replaced by: close, a double-quoted quote, reopen. */
  function ReplaceQuotes(s: seq<byte>): seq<byte> {
    if s == [] then []
    else (if s[0] == QUOTE then [QUOTE, DOUBLE, QUOTE, DOUBLE, QUOTE] else [s[0]]) + ReplaceQuotes(s[1..])
  }

  function Octal(b: byte): seq<byte> {
    [BACKSLASH, ZERO + b / 64, ZERO + b / 8 % 8, ZERO + b % 8]
  }

  function OctalAll(s: seq<byte>): seq<byte> {
    if s == [] then [] else OctalAll(s[..|s| - 1]) + Octal(s[|s| - 1])
  }

  function Quoted(isPrint: int -> bool, s: seq<byte>): seq<byte> {
    if Printable(isPrint, s) then [QUOTE] + ReplaceQuotes(s) + [QUOTE]
    else [DOLLAR, QUOTE] + OctalAll(s) + [QUOTE]
  }

  method ShellQuote(isPrint: int -> bool, s: seq<byte>) returns (q: seq<byte>)
    ensures q == Quoted(isPrint, s)
  {
    if Printable(isPrint, s) {
      return [QUOTE] + ReplaceQuotes(s) + [QUOTE];
    }
    q := [DOLLAR, QUOTE];
    for i := 0 to |s|
      invariant q == [DOLLAR, QUOTE] + OctalAll(s[..i])
    {
      assert s[..i + 1][..i] == s[..i];
      q := q + Octal(s[i]);
    }
    assert s[..|s|] == s;
    q := q + [QUOTE];
  }

  // ----- A shell's reading of one word -----

  datatype Mode = Unquoted | Single | Double | Dollar

  /** Bytes that end a word, start an expansion or otherwise act when they stand unquoted. */
  predicate Special(b: byte) {
    b <= 0x20 || b >= 0x7F || b in {0x21, 0x22, 0x23, 0x24, 0x25, 0x26, 0x27, 0x28, 0x29, 0x2A,
                                     0x3B, 0x3C, 0x3D, 0x3E, 0x3F, 0x5B, 0x5C, 0x5D, 0x5E, 0x60,
                                     0x7B, 0x7C, 0x7D, 0x7E}
  }

  predicate OctalDigit(q: seq<byte>, i: nat) {
    i < |q| && ZERO <= q[i] <= ZERO + 7
  }

  /** The one to three octal digits at the start of `q`: their number and their value. */
  function OctalEscape(q: seq<byte>): (nat, int) {
    if !OctalDigit(q, 0) then (0, 0)
    else if !OctalDigit(q, 1) then (1, q[0] - ZERO)
    else if !OctalDigit(q, 2) then (2, (q[0] - ZERO) * 8 + (q[1] - ZERO))
    else (3, (q[0] - ZERO) * 64 + (q[1] - ZERO) * 8 + (q[2] - ZERO))
  }

  /** The bytes that `q` denotes when it is exactly one word of quoted parts and ordinary bytes,
      read in the given quoting mode. Anything else, unterminated quotes, expansions and escapes
      without a defined byte among it, is no such word. */
  function Read(mode: Mode, q: seq<byte>): Option<seq<byte>>
    decreases |q|
  {
    if q == [] then (if mode == Unquoted then Some([]) else None)
    else match mode
      case Unquoted =>
        if q[0] == QUOTE then Read(Single, q[1..])
        else if q[0] == DOUBLE then Read(Double, q[1..])
        else if q[0] == DOLLAR && |q| > 1 && q[1] == QUOTE then Read(Dollar, q[2..])
        else if Special(q[0]) then None
        else Prepend(q[0], Read(Unquoted, q[1..]))
      case Single =>
        if q[0] == QUOTE then Read(Unquoted, q[1..]) else Prepend(q[0], Read(Single, q[1..]))
      case Double =>
        if q[0] == DOUBLE then Read(Unquoted, q[1..])
        else if q[0] == DOLLAR || q[0] == BACKSLASH || q[0] == 0x60 then None
        else Prepend(q[0], Read(Double, q[1..]))
      case Dollar =>
        if q[0] == QUOTE then Read(Unquoted, q[1..])
        else if q[0] == BACKSLASH then
          var (n, v) := OctalEscape(q[1..]);
          if n == 0 || v == 0 || v >= 256 then None else Prepend(v, Read(Dollar, q[1 + n..]))
        else Prepend(q[0], Read(Dollar, q[1..]))
  }

  function Prepend(b: byte, rest: Option<seq<byte>>): Option<seq<byte>> {
    match rest case None => None case Some(bs) => Some([b] + bs)
  }

  // ----- Reading back -----

  /** A replaced quote, read between single quotes, is one quote. */
  lemma QuoteReadsBack(tail: seq<byte>)
    ensures Read(Single, [QUOTE, DOUBLE, QUOTE, DOUBLE, QUOTE] + tail) == Prepend(QUOTE, Read(Single, tail))
  {
    assert ([QUOTE, DOUBLE, QUOTE, DOUBLE, QUOTE] + tail)[1..] == [DOUBLE, QUOTE, DOUBLE, QUOTE] + tail;
    assert ([DOUBLE, QUOTE, DOUBLE, QUOTE] + tail)[1..] == [QUOTE, DOUBLE, QUOTE] + tail;
    assert ([QUOTE, DOUBLE, QUOTE] + tail)[1..] == [DOUBLE, QUOTE] + tail;
    assert ([DOUBLE, QUOTE] + tail)[1..] == [QUOTE] + tail;
    assert ([QUOTE] + tail)[1..] == tail;
    assert Read(Unquoted, [QUOTE] + tail) == Read(Single, tail);
    assert Read(Double, [DOUBLE, QUOTE] + tail) == Read(Single, tail);
    assert Read(Double, [QUOTE, DOUBLE, QUOTE] + tail) == Prepend(QUOTE, Read(Single, tail));
    assert Read(Unquoted, [DOUBLE, QUOTE, DOUBLE, QUOTE] + tail) == Prepend(QUOTE, Read(Single, tail));
  }

  lemma {:induction false} SingleReadsBack(s: seq<byte>)
    ensures Read(Single, ReplaceQuotes(s) + [QUOTE]) == Some(s)
  {
    if s == [] {
      assert ReplaceQuotes(s) + [QUOTE] == [QUOTE];
    } else {
      SingleReadsBack(s[1..]);
      var tail := ReplaceQuotes(s[1..]) + [QUOTE];
      assert s == [s[0]] + s[1..];
      if s[0] == QUOTE {
        QuoteReadsBack(tail);
        assert ReplaceQuotes(s) + [QUOTE] == [QUOTE, DOUBLE, QUOTE, DOUBLE, QUOTE] + tail;
      } else {
        assert (ReplaceQuotes(s) + [QUOTE])[1..] == tail;
      }
    }
  }

  lemma OctalReadsBack(b: byte, tail: seq<byte>)
    ensures Read(Dollar, Octal(b) + tail) == if b == 0 then None else Prepend(b, Read(Dollar, tail))
  {
    var q := Octal(b) + tail;
    assert q[1 + 3..] == tail;
    assert OctalEscape(q[1..]) == (3, b);
  }

  lemma {:induction false} OctalAllFirst(s: seq<byte>)
    requires s != []
    ensures OctalAll(s) == Octal(s[0]) + OctalAll(s[1..])
  {
    if |s| > 1 {
      OctalAllFirst(s[..|s| - 1]);
      assert s[..|s| - 1][1..] == s[1..][..|s| - 2];
    }
  }

  lemma {:induction false} DollarReadsBack(s: seq<byte>)
    ensures Read(Dollar, OctalAll(s) + [QUOTE]) == if 0 in s then None else Some(s)
  {
    if s == [] {
      assert OctalAll(s) + [QUOTE] == [QUOTE];
    } else {
      OctalAllFirst(s);
      var tail := OctalAll(s[1..]) + [QUOTE];
      assert OctalAll(s) + [QUOTE] == Octal(s[0]) + tail;
      OctalReadsBack(s[0], tail);
      DollarReadsBack(s[1..]);
      assert s == [s[0]] + s[1..];
    }
  }

  lemma {:induction false} PrintableHasNoNul(isPrint: int -> bool, s: seq<byte>)
    requires !isPrint(0) && Printable(isPrint, s)
    ensures 0 !in s
  {
    if s != [] {
      var n := RuneLength(s);
      PrintableHasNoNul(isPrint, s[n..]);
      assert s == s[..n] + s[n..];
    }
  }

  /** The quoted text is exactly one shell word denoting the original bytes, for every byte string
      without a NUL and for no other. */
  lemma ReadsBackIffNulFree(isPrint: int -> bool, s: seq<byte>)
    requires !isPrint(0)
    ensures Read(Unquoted, Quoted(isPrint, s)) == Some(s) <==> 0 !in s
  {
    var q := Quoted(isPrint, s);
    if Printable(isPrint, s) {
      assert q[1..] == ReplaceQuotes(s) + [QUOTE];
      SingleReadsBack(s);
      PrintableHasNoNul(isPrint, s);
    } else {
      assert q[2..] == OctalAll(s) + [QUOTE];
      DollarReadsBack(s);
    }
  }

  // ----- Nothing unprintable is written -----

  lemma PrintableAscii(isPrint: int -> bool, b: byte, s: seq<byte>)
    requires b < 0x80 && isPrint(b) && Printable(isPrint, s)
    ensures Printable(isPrint, [b] + s)
  {
    assert ([b] + s)[1..] == s;
  }

  lemma {:induction false} PrintableConcat(isPrint: int -> bool, s: seq<byte>, t: seq<byte>)
    requires Printable(isPrint, s) && Printable(isPrint, t)
    ensures Printable(isPrint, s + t)
  {
    if s == [] {
      assert s + t == t;
    } else {
      var n := RuneLength(s);
      RunePrefix(s, s + t);
      PrintableConcat(isPrint, s[n..], t);
      assert (s + t)[n..] == s[n..] + t;
    }
  }

  lemma {:induction false} NoQuoteUnchanged(s: seq<byte>)
    requires QUOTE !in s
    ensures ReplaceQuotes(s) == s
  {
    if s != [] {
      NoQuoteUnchanged(s[1..]);
    }
  }

  lemma {:induction false} ReplaceConcat(s: seq<byte>, t: seq<byte>)
    ensures ReplaceQuotes(s + t) == ReplaceQuotes(s) + ReplaceQuotes(t)
  {
    if s == [] {
      assert s + t == t;
    } else {
      assert (s + t)[1..] == s[1..] + t;
      ReplaceConcat(s[1..], t);
    }
  }

  /** Replacing in one printable character leaves printable text. */
  lemma FirstReplaced(isPrint: int -> bool, s: seq<byte>)
    requires isPrint(QUOTE) && isPrint(DOUBLE) && s != [] && RuneLength(s) > 0 && isPrint(Rune(s))
    ensures Printable(isPrint, ReplaceQuotes(s[..RuneLength(s)]))
  {
    var n := RuneLength(s);
    if s[0] == QUOTE {
      AllAsciiPrintable(isPrint, [QUOTE, DOUBLE, QUOTE, DOUBLE, QUOTE]);
      assert ReplaceQuotes(s[..n]) == [QUOTE, DOUBLE, QUOTE, DOUBLE, QUOTE] by { assert s[..n] == [QUOTE]; }
    } else {
      NoQuoteUnchanged(s[..n]);
      RunePrefix(s, s[..n]);
      assert s[..n][n..] == [];
    }
  }

  lemma {:induction false} ReplacedPrintable(isPrint: int -> bool, s: seq<byte>)
    requires isPrint(QUOTE) && isPrint(DOUBLE) && Printable(isPrint, s)
    ensures Printable(isPrint, ReplaceQuotes(s))
  {
    if s != [] {
      var n := RuneLength(s);
      ReplacedPrintable(isPrint, s[n..]);
      assert s == s[..n] + s[n..];
      ReplaceConcat(s[..n], s[n..]);
      FirstReplaced(isPrint, s);
      PrintableConcat(isPrint, ReplaceQuotes(s[..n]), ReplaceQuotes(s[n..]));
    }
  }

  lemma {:induction false} AllAsciiPrintable(isPrint: int -> bool, s: seq<byte>)
    requires forall i :: 0 <= i < |s| ==> s[i] < 0x80 && isPrint(s[i])
    ensures Printable(isPrint, s)
  {
    if s != [] {
      AllAsciiPrintable(isPrint, s[1..]);
      PrintableAscii(isPrint, s[0], s[1..]);
      assert s == [s[0]] + s[1..];
    }
  }

  lemma {:induction false} OctalBytes(s: seq<byte>, i: nat)
    requires i < |OctalAll(s)|
    ensures OctalAll(s)[i] == BACKSLASH || ZERO <= OctalAll(s)[i] <= ZERO + 7
  {
    var p := s[..|s| - 1];
    if i < |OctalAll(p)| {
      OctalBytes(p, i);
    }
  }

  /** Whatever the bytes, the quoted text is valid UTF-8 made of printable characters. */
  lemma QuotedIsPrintable(isPrint: int -> bool, s: seq<byte>)
    requires forall c :: 0x20 <= c < 0x7F ==> isPrint(c)
    ensures Printable(isPrint, Quoted(isPrint, s))
  {
    AllAsciiPrintable(isPrint, [QUOTE]);
    if Printable(isPrint, s) {
      ReplacedPrintable(isPrint, s);
      PrintableConcat(isPrint, [QUOTE], ReplaceQuotes(s));
      PrintableConcat(isPrint, [QUOTE] + ReplaceQuotes(s), [QUOTE]);
    } else {
      forall i | 0 <= i < |OctalAll(s)| ensures OctalAll(s)[i] < 0x80 && isPrint(OctalAll(s)[i]) {
        OctalBytes(s, i);
      }
      AllAsciiPrintable(isPrint, OctalAll(s));
      AllAsciiPrintable(isPrint, [DOLLAR, QUOTE]);
      PrintableConcat(isPrint, [DOLLAR, QUOTE], OctalAll(s));
      PrintableConcat(isPrint, [DOLLAR, QUOTE] + OctalAll(s), [QUOTE]);
    }
  }

  /** A NUL does not read back: it is quoted as an escape that denotes no byte. */
  lemma NulDoesNotReadBack(isPrint: int -> bool)
    requires !isPrint(0)
    ensures Quoted(isPrint, [0]) == [DOLLAR, QUOTE, BACKSLASH, ZERO, ZERO, ZERO, QUOTE]
    ensures Read(Unquoted, Quoted(isPrint, [0])) != Some([0])
  {
    var s: seq<byte> := [0];
    assert RuneLength(s) == 1 && Rune(s) == 0;
    assert s[..0] == [] && OctalAll(s) == [] + Octal(0);
    ReadsBackIffNulFree(isPrint, s);
  }

  // ----- The quotation, byte by byte -----

  lemma {:induction false} ReplacedAt(s: seq<byte>, t: seq<byte>)
    ensures ReplaceQuotes(s + [0x27] + t) == ReplaceQuotes(s) + [0x27, 0x22, 0x27, 0x22, 0x27] + ReplaceQuotes(t)
  {
    ReplaceConcat(s + [0x27], t);
    ReplaceConcat(s, [0x27]);
    assert ReplaceQuotes([0x27]) == [0x27, 0x22, 0x27, 0x22, 0x27] + ReplaceQuotes([]);
  }

  /** Printable text stands between two single quotes, as it is but for single quotes in it, each of which
      closes the quotation, stands between double quotes, and opens it again. */
  lemma PrintableQuoted(isPrint: int -> bool, s: seq<byte>, t: seq<byte>)
    requires Printable(isPrint, s)
    ensures Quoted(isPrint, s) == [0x27] + ReplaceQuotes(s) + [0x27]
    ensures 0x27 !in s ==> ReplaceQuotes(s) == s
    ensures ReplaceQuotes(s + [0x27] + t) == ReplaceQuotes(s) + [0x27, 0x22, 0x27, 0x22, 0x27] + ReplaceQuotes(t)
  {
    ReplacedAt(s, t);
    if 0x27 !in s {
      NoQuoteUnchanged(s);
    }
  }

  lemma {:induction false} OctalAt(s: seq<byte>, i: nat)
    requires i < |s|
    ensures |OctalAll(s)| == 4 * |s|
    ensures OctalAll(s)[4 * i..4 * i + 4] == [0x5C, 0x30 + s[i] / 64, 0x30 + s[i] / 8 % 8, 0x30 + s[i] % 8]
  {
    var p, n := s[..|s| - 1], |s| - 1;
    OctalLength(p);
    if i < n {
      OctalAt(p, i);
      assert OctalAll(s)[4 * i..4 * i + 4] == OctalAll(p)[4 * i..4 * i + 4];
    } else {
      assert OctalAll(s)[4 * n..] == Octal(s[n]);
    }
  }

  lemma {:induction false} OctalLength(s: seq<byte>)
    ensures |OctalAll(s)| == 4 * |s|
  {
    if s != [] {
      OctalLength(s[..|s| - 1]);
    }
  }

  /** Any other text stands between a dollar sign with a single quote and a single quote, each byte as a
      backslash and its value in three octal digits. */
  lemma UnprintableQuoted(isPrint: int -> bool, s: seq<byte>, i: nat)
    requires !Printable(isPrint, s) && i < |s|
    ensures Quoted(isPrint, s) == [0x24, 0x27] + OctalAll(s) + [0x27] && |OctalAll(s)| == 4 * |s|
    ensures OctalAll(s)[4 * i..4 * i + 4] == [0x5C, 0x30 + s[i] / 64, 0x30 + s[i] / 8 % 8, 0x30 + s[i] % 8]
  {
    OctalAt(s, i);
  }
}
