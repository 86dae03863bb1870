/** UTF-8 as the Go library accepts it: the character at the start of a byte string. */
module Utf8 {

  type byte = x: int | 0 <= x < 256

  predicate Within(s: seq<byte>, i: nat, low: int, high: int) {
    i < |s| && low <= s[i] <= high
  }

  /** The number of bytes of the first character, or zero when no valid character starts there. */
  function RuneLength(s: seq<byte>): (n: nat)
    ensures n <= |s|
  {
    if s == [] then 0
    else if s[0] < 0x80 then 1
    else if 0xC2 <= s[0] <= 0xDF && Within(s, 1, 0x80, 0xBF) then 2
    else if 0xE0 <= s[0] <= 0xEF
      && Within(s, 1, if s[0] == 0xE0 then 0xA0 else 0x80, if s[0] == 0xED then 0x9F else 0xBF)
      && Within(s, 2, 0x80, 0xBF) then 3
    else if 0xF0 <= s[0] <= 0xF4
      && Within(s, 1, if s[0] == 0xF0 then 0x90 else 0x80, if s[0] == 0xF4 then 0x8F else 0xBF)
      && Within(s, 2, 0x80, 0xBF) && Within(s, 3, 0x80, 0xBF) then 4
    else 0
  }

  function Rune(s: seq<byte>): int
    requires RuneLength(s) > 0
  {
    var n := RuneLength(s);
    var lead: int, second: int := s[0], if n > 1 then s[1] - 0x80 else 0;
    var third: int, fourth: int := if n > 2 then s[2] - 0x80 else 0, if n > 3 then s[3] - 0x80 else 0;
    if n == 1 then lead
    else if n == 2 then (lead - 0xC0) * 0x40 + second
    else if n == 3 then (lead - 0xE0) * 0x1000 + second * 0x40 + third
    else (lead - 0xF0) * 0x40000 + second * 0x1000 + third * 0x40 + fourth
  }

  /** A first character is unaffected by what follows it. */
  lemma RunePrefix(s: seq<byte>, t: seq<byte>)
    requires 0 < RuneLength(s) <= |t| && t[..RuneLength(s)] == s[..RuneLength(s)]
    ensures RuneLength(t) == RuneLength(s) && Rune(t) == Rune(s)
  {
    assert forall i :: 0 <= i < RuneLength(s) ==> t[i] == t[..RuneLength(s)][i] == s[i];
  }

  /** The bytes of a character beyond ASCII are all beyond ASCII. */
  lemma BeyondAscii(s: seq<byte>, i: nat)
    requires i < RuneLength(s) && s[i] < 0x80
    ensures RuneLength(s) == 1 && Rune(s) == s[0]
  {
  }

  // ----- Encoding -----

  /** The scalar values: every code point but the surrogates. */
  predicate Scalar(r: int) {
    0 <= r < 0xD800 || 0xE000 <= r <= 0x10FFFF
  }

  /** A scalar value in UTF-8. */
  function Encoded(r: int): seq<byte>
    requires Scalar(r)
  {
    if r < 0x80 then [r]
    else if r < 0x800 then [0xC0 + r / 0x40, 0x80 + r % 0x40]
    else if r < 0x10000 then [0xE0 + r / 0x40 / 0x40, 0x80 + r / 0x40 % 0x40, 0x80 + r % 0x40]
    else [0xF0 + r / 0x40 / 0x40 / 0x40, 0x80 + r / 0x40 / 0x40 % 0x40, 0x80 + r / 0x40 % 0x40, 0x80 + r % 0x40]
  }

  lemma Digits(r: nat) returns (c: nat, b: nat, a: nat)
    ensures a == r % 0x40 && b == r / 0x40 % 0x40 && c == r / 0x40 / 0x40
    ensures r == c * 0x1000 + b * 0x40 + a && a < 0x40 && b < 0x40
  {
    c, b, a := r / 0x40 / 0x40, r / 0x40 % 0x40, r % 0x40;
  }

  lemma ShortReadsBack(r: int, s: seq<byte>)
    requires 0 <= r < 0x800 && Encoded(r) <= s
    ensures RuneLength(s) == |Encoded(r)| && Rune(s) == r
  {
    assert s[..|Encoded(r)|] == Encoded(r);
    assert s[0] == Encoded(r)[0] && (r >= 0x80 ==> s[1] == Encoded(r)[1]);
  }

  lemma MiddleReadsBack(r: int, s: seq<byte>)
    requires Scalar(r) && 0x800 <= r < 0x10000 && Encoded(r) <= s
    ensures RuneLength(s) == 3 && Rune(s) == r
  {
    var c, b, a := Digits(r);
    assert s[0] == 0xE0 + c && s[1] == 0x80 + b && s[2] == 0x80 + a;
  }

  lemma LongReadsBack(r: int, s: seq<byte>)
    requires Scalar(r) && 0x10000 <= r && Encoded(r) <= s
    ensures RuneLength(s) == 4 && Rune(s) == r
  {
    var c, b, a := Digits(r);
    var d, e := c / 0x40, c % 0x40;
    assert s[0] == 0xF0 + d && s[1] == 0x80 + e && s[2] == 0x80 + b && s[3] == 0x80 + a;
    assert r == d * 0x40000 + e * 0x1000 + b * 0x40 + a;
  }

  /** Every encoded scalar value is read back, whatever follows it. */
  lemma EncodedReadsBack(r: int, s: seq<byte>)
    requires Scalar(r) && Encoded(r) <= s
    ensures RuneLength(s) == |Encoded(r)| && Rune(s) == r
  {
    if r < 0x800 {
      ShortReadsBack(r, s);
    } else if r < 0x10000 {
      MiddleReadsBack(r, s);
    } else {
      LongReadsBack(r, s);
    }
  }

  lemma ShiftedDigits(c: nat, b: nat, a: nat)
    requires b < 0x40 && a < 0x40
    ensures var r := c * 0x1000 + b * 0x40 + a; r / 0x40 == c * 0x40 + b && r % 0x40 == a
    ensures (c * 0x40 + b) / 0x40 == c && (c * 0x40 + b) % 0x40 == b
  {
  }

  lemma MiddleIsEncoded(s: seq<byte>)
    requires RuneLength(s) == 3
    ensures Scalar(Rune(s)) && s[..3] == Encoded(Rune(s))
  {
    ShiftedDigits(s[0] - 0xE0, s[1] - 0x80, s[2] - 0x80);
  }

  lemma LongIsEncoded(s: seq<byte>)
    requires RuneLength(s) == 4
    ensures Scalar(Rune(s)) && s[..4] == Encoded(Rune(s))
  {
    var lead: int, second: int := s[0] - 0xF0, s[1] - 0x80;
    var c := lead * 0x40 + second;
    assert Rune(s) == c * 0x1000 + (s[2] - 0x80) * 0x40 + (s[3] - 0x80);
    ShiftedDigits(c, s[2] - 0x80, s[3] - 0x80);
    assert c / 0x40 == lead && c % 0x40 == second;
  }

  /** Nothing else is read: what a character is read from is its encoding, the shortest one. */
  lemma ReadIsEncoded(s: seq<byte>)
    requires RuneLength(s) > 0
    ensures Scalar(Rune(s)) && s[..RuneLength(s)] == Encoded(Rune(s))
  {
    if RuneLength(s) == 3 {
      MiddleIsEncoded(s);
    } else if RuneLength(s) == 4 {
      LongIsEncoded(s);
    } else if RuneLength(s) == 2 {
      ShiftedDigits(0, s[0] - 0xC0, s[1] - 0x80);
    }
  }
}
