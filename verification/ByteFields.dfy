/** Splitting a byte string at white space, which may take several bytes: the fields as the Go library
    finds them in the decoded text. Each byte is written as the character with its number. */
module ByteFields {
  import opened Utf8
  import W = Wrapping

  function Octets(s: string): seq<byte> {
    seq(|s|, i requires 0 <= i < |s| => s[i] as int % 256)
  }

  /** How text is scanned: the length of the white space character at its start, or zero, and the
      length of its first character. */
  datatype Scanner = Scanner(blank: string -> nat, width: string -> nat)

  /** The length of the white space character at the start, or zero. */
  function Blank(space: int -> bool, s: string): (n: nat) {
    var n := RuneLength(Octets(s));
    if n > 0 && space(Rune(Octets(s))) then n else 0
  }

  /** The length of the first character; a byte that starts none counts as one. */
  function Width(s: string): (n: nat) {
    var n := RuneLength(Octets(s));
    if n > 0 then n else 1
  }

  function ScannerFor(space: int -> bool): Scanner {
    Scanner(s => Blank(space, s), s => Width(s))
  }

  /** The text after its first n characters, if there are so many. */
  function Skip(s: string, n: nat): string {
    if n <= |s| then s[n..] else ""
  }

  /** Up to the next white space. */
  function WordLength(c: Scanner, s: string): (n: nat)
    ensures n <= |s| && (s != "" && c.blank(s) == 0 ==> n > 0)
    decreases |s|
  {
    if s == "" || c.blank(s) > 0 then 0
    else
      var n := if 0 < c.width(s) <= |s| then c.width(s) else 1;
      n + WordLength(c, s[n..])
  }

  function FieldsBy(c: Scanner, s: string): seq<string>
    decreases |s|
  {
    if s == "" then []
    else if c.blank(s) > 0 then FieldsBy(c, Skip(s, c.blank(s)))
    else [s[..WordLength(c, s)]] + FieldsBy(c, s[WordLength(c, s)..])
  }

  function Splitter(space: int -> bool): string -> seq<string> {
    s => FieldsBy(ScannerFor(space), s)
  }

  /** White space beyond ASCII holds no ASCII byte. */
  lemma BlankIsPlain(space: int -> bool, s: string, i: nat)
    requires i < |s| && i < Blank(space, s) && s[i] == ')'
    ensures space(')' as int)
  {
    assert Octets(s)[i] == ')' as int;
    BeyondAscii(Octets(s), i);
  }

  /** Some field has the character. */
  ghost predicate Mentions(fields: seq<string>, c: char) {
    exists k :: 0 <= k < |fields| && c in fields[k]
  }

  lemma MentionsFirst(word: string, fields: seq<string>, c: char)
    ensures Mentions([word] + fields, c) <==> c in word || Mentions(fields, c)
  {
    var all := [word] + fields;
    if Mentions(fields, c) {
      var k :| 0 <= k < |fields| && c in fields[k];
      assert all[k + 1] == fields[k];
    }
    if Mentions(all, c) {
      var k :| 0 <= k < |all| && c in all[k];
      assert k > 0 ==> all[k] == fields[k - 1];
    }
    assert all[0] == word;
  }

  /** White space never has the closing parenthesis. */
  ghost predicate Skips(c: Scanner) {
    forall t: string, j :: 0 <= j < |t| && j < c.blank(t) ==> t[j] != ')'
  }

  lemma {:induction false} CoveredBy(c: Scanner, s: string, i: nat)
    requires i < |s| && s[i] == ')' && Skips(c)
    ensures Mentions(FieldsBy(c, s), ')')
    decreases |s|
  {
    var b := c.blank(s);
    if b > 0 {
      assert i >= b;
      CoveredBy(c, Skip(s, b), i - b);
    } else {
      var n := WordLength(c, s);
      MentionsFirst(s[..n], FieldsBy(c, s[n..]), ')');
      if i < n {
        assert s[..n][i] == ')';
      } else {
        CoveredBy(c, s[n..], i - n);
      }
    }
  }

  lemma ScannerSkips(space: int -> bool)
    requires !space(')' as int)
    ensures Skips(ScannerFor(space))
  {
    forall t: string, j | 0 <= j < |t| && j < ScannerFor(space).blank(t) ensures t[j] != ')' {
      if t[j] == ')' {
        BlankIsPlain(space, t, j);
      }
    }
  }

  /** A closing parenthesis is part of some field. */
  lemma FieldsCover(space: int -> bool, s: string, i: nat)
    requires i < |s| && s[i] == ')' && !space(')' as int)
    ensures Mentions(Splitter(space)(s), ')')
  {
    ScannerSkips(space);
    CoveredBy(ScannerFor(space), s, i);
  }

  /** A byte that begins no character stands for itself in its word. */
  lemma BrokenByte(space: int -> bool, s: string)
    requires s != "" && RuneLength(Octets(s)) == 0
    ensures WordLength(ScannerFor(space), s) == 1 + WordLength(ScannerFor(space), s[1..])
  {
  }

  // ----- ASCII text -----

  ghost predicate Ascii(s: string) {
    forall i :: 0 <= i < |s| ==> s[i] < '\U{80}'
  }

  lemma AsciiScan(space: int -> bool, s: string)
    requires Ascii(s) && s != ""
    ensures Blank(space, s) == (if space(s[0] as int) then 1 else 0) && Width(s) == 1
  {
    assert Octets(s)[0] == s[0] as int;
  }

  /** White space as a property of ASCII characters. */
  function LettersFor(space: int -> bool): W.Letters {
    W.Letters((c: char) => space(c as int), (c: char) => false)
  }

  /** A scanner that takes one character at a time splits as the characters do. */
  lemma {:induction false} WordLengthAscii(c: Scanner, u: W.Letters, s: string)
    requires forall k :: 0 <= k < |s| ==> c.blank(s[k..]) == (if u.space(s[k]) then 1 else 0) && c.width(s[k..]) == 1
    ensures WordLength(c, s) == W.WordLength(u, s)
  {
    if s != "" {
      assert s[0..] == s;
      forall k | 0 <= k < |s[1..]| ensures s[1..][k..] == s[k + 1..] {
      }
      WordLengthAscii(c, u, s[1..]);
    }
  }

  lemma {:induction false} FieldsAscii(c: Scanner, u: W.Letters, s: string)
    requires forall k :: 0 <= k < |s| ==> c.blank(s[k..]) == (if u.space(s[k]) then 1 else 0) && c.width(s[k..]) == 1
    ensures FieldsBy(c, s) == W.Fields(u, s)
    decreases |s|
  {
    if s != "" {
      assert s[0..] == s;
      WordLengthAscii(c, u, s);
      var n := if u.space(s[0]) then 1 else WordLength(c, s);
      forall k | 0 <= k < |s[n..]| ensures s[n..][k..] == s[n + k..] {
      }
      FieldsAscii(c, u, s[n..]);
    }
  }

  /** Words with single blanks between them and a newline after them are split into these words. */
  lemma FieldsOfJoined(space: int -> bool, words: seq<string>)
    requires space(' ' as int) && space('\n' as int) && forall c :: 0x20 < c < 0x7F ==> !space(c)
    requires forall i :: 0 <= i < |words| ==> words[i] != "" && forall j :: 0 <= j < |words[i]| ==>
               ' ' < words[i][j] < '\U{7F}'
    ensures Splitter(space)(W.Join(words) + "\n") == words
  {
    var c, u, s := ScannerFor(space), LettersFor(space), W.Join(words) + "\n";
    JoinAscii(words);
    forall k | 0 <= k < |s| ensures c.blank(s[k..]) == (if u.space(s[k]) then 1 else 0) && c.width(s[k..]) == 1 {
      AsciiScan(space, s[k..]);
    }
    FieldsAscii(c, u, s);
    W.FieldsJoin(u, words, '\n');
  }

  lemma {:induction false} JoinAscii(words: seq<string>)
    requires forall i :: 0 <= i < |words| ==> Ascii(words[i])
    ensures Ascii(W.Join(words))
  {
    if |words| > 1 {
      JoinAscii(words[..|words| - 1]);
    }
  }

  // ----- Text in UTF-8 -----

  /** A character's bytes, each written as the character with its number. */
  function Bytes(c: char): (b: string)
    ensures b != ""
  {
    var e := Encoded(c as int);
    seq(|e|, i requires 0 <= i < |e| => e[i] as char)
  }

  function Text(s: string): string {
    if s == "" then "" else Bytes(s[0]) + Text(s[1..])
  }

  function Texts(words: seq<string>): seq<string> {
    seq(|words|, i requires 0 <= i < |words| => Text(words[i]))
  }

  lemma TextScan(space: int -> bool, c: char, rest: string)
    ensures Blank(space, Bytes(c) + rest) == (if space(c as int) then |Bytes(c)| else 0)
    ensures Width(Bytes(c) + rest) == |Bytes(c)|
  {
    var e, o := Encoded(c as int), Octets(Bytes(c) + rest);
    forall i | 0 <= i < |e| ensures o[i] == e[i] {
      assert (Bytes(c) + rest)[i] == e[i] as char;
    }
    assert o[..|e|] == e;
    EncodedReadsBack(c as int, o);
  }

  lemma TextFirst(s: string)
    requires s != ""
    ensures Text(s)[|Bytes(s[0])|..] == Text(s[1..]) && Text(s) != ""
  {
  }

  lemma WordNext(space: int -> bool, s: string)
    requires s != "" && !space(s[0] as int)
    ensures WordLength(ScannerFor(space), Text(s)) == |Bytes(s[0])| + WordLength(ScannerFor(space), Text(s[1..]))
  {
    TextScan(space, s[0], Text(s[1..]));
    TextFirst(s);
  }

  lemma TextNext(s: string, n: nat)
    requires 0 < n <= |s|
    ensures |Text(s[..n])| == |Bytes(s[0])| + |Text(s[1..][..n - 1])|
  {
    assert s[..n][1..] == s[1..][..n - 1];
  }

  lemma {:induction false} WordOfText(space: int -> bool, s: string)
    ensures WordLength(ScannerFor(space), Text(s)) == |Text(s[..W.WordLength(LettersFor(space), s)])|
  {
    if s != "" && !space(s[0] as int) {
      WordNext(space, s);
      WordOfText(space, s[1..]);
      TextNext(s, W.WordLength(LettersFor(space), s));
    } else if s != "" {
      TextScan(space, s[0], Text(s[1..]));
    }
  }

  lemma {:induction false} TextConcat(a: string, b: string)
    ensures Text(a + b) == Text(a) + Text(b)
  {
    if a == "" {
      assert a + b == b;
    } else {
      assert (a + b)[1..] == a[1..] + b;
      TextConcat(a[1..], b);
    }
  }

  lemma WordFirst(space: int -> bool, s: string) returns (word: string, rest: string)
    requires s != "" && !space(s[0] as int)
    ensures s == word + rest && word != ""
    ensures W.Fields(LettersFor(space), s) == [word] + W.Fields(LettersFor(space), rest)
    ensures Splitter(space)(Text(s)) == [Text(word)] + Splitter(space)(Text(rest))
  {
    var n := W.WordLength(LettersFor(space), s);
    word, rest := s[..n], s[n..];
    WordOfText(space, s);
    TextScan(space, s[0], Text(s[1..]));
    TextConcat(word, rest);
    assert s == word + rest;
    assert Text(s)[..|Text(word)|] == Text(word) && Text(s)[|Text(word)|..] == Text(rest);
  }

  lemma TextsFirst(word: string, words: seq<string>)
    ensures Texts([word] + words) == [Text(word)] + Texts(words)
  {
  }

  /** Splitting the bytes of a text is splitting the text: whatever characters count as white space and
      however many bytes they take. */
  lemma {:induction false} FieldsOfText(space: int -> bool, s: string)
    ensures Splitter(space)(Text(s)) == Texts(W.Fields(LettersFor(space), s))
    decreases |s|
  {
    if s != "" {
      if space(s[0] as int) {
        TextScan(space, s[0], Text(s[1..]));
        TextFirst(s);
        FieldsOfText(space, s[1..]);
      } else {
        var word, rest := WordFirst(space, s);
        FieldsOfText(space, rest);
        TextsFirst(word, W.Fields(LettersFor(space), rest));
      }
    }
  }
}
