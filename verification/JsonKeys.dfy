/** The check that a report's JSON repeats no key and is not nested too deeply, as a recursive
    descent over the decoder's tokens, against the tree the tokens come from. */
module JsonKeys {

  import opened Basics

  const MAX_DEPTH: nat := 16

  datatype Token = OpenObject | CloseObject | OpenArray | CloseArray | Text(text: string) | Other

  /** A JSON value; a scalar is its token. */
  datatype Json =
    | Scalar(token: Token)
    | Object(members: seq<Member>)
    | Array(items: seq<Json>)

  datatype Member = Member(key: string, value: Json)

  ghost predicate IsValue(v: Json) {
    match v
    case Scalar(t) => t.Text? || t.Other?
    case Object(ms) => forall m :: m in ms ==> IsValue(m.value)
    case Array(vs) => forall w :: w in vs ==> IsValue(w)
  }

  // ----- The tokens of a value -----

  function Tokens(v: Json): seq<Token>
    decreases v, 1
  {
    match v
    case Scalar(t) => [t]
    case Object(ms) => [OpenObject] + MemberTokens(ms) + [CloseObject]
    case Array(vs) => [OpenArray] + ItemTokens(vs) + [CloseArray]
  }

  function MemberTokens(ms: seq<Member>): seq<Token>
    decreases ms, 0
  {
    if ms == [] then [] else [Text(ms[0].key)] + Tokens(ms[0].value) + MemberTokens(ms[1..])
  }

  function ItemTokens(vs: seq<Json>): seq<Token>
    decreases vs, 0
  {
    if vs == [] then [] else Tokens(vs[0]) + ItemTokens(vs[1..])
  }

  // ----- What the check is for -----

  /** How many levels lie below a value. */
  function Height(v: Json): nat
    decreases v, 1
  {
    match v
    case Scalar(_) => 0
    case Object(ms) => if ms == [] then 0 else 1 + TallestMember(ms)
    case Array(vs) => if vs == [] then 0 else 1 + TallestItem(vs)
  }

  function TallestMember(ms: seq<Member>): nat
    decreases ms, 0
  {
    if ms == [] then 0 else Max(Height(ms[0].value), TallestMember(ms[1..]))
  }

  function TallestItem(vs: seq<Json>): nat
    decreases vs, 0
  {
    if vs == [] then 0 else Max(Height(vs[0]), TallestItem(vs[1..]))
  }

  /** No object at any level has two members with the same key. */
  ghost predicate NoRepeats(v: Json) {
    match v
    case Scalar(_) => true
    case Object(ms) =>
      && (forall i, j :: 0 <= i < j < |ms| ==> ms[i].key != ms[j].key)
      && forall m :: m in ms ==> NoRepeats(m.value)
    case Array(vs) => forall w :: w in vs ==> NoRepeats(w)
  }

  // ----- The descent -----

  /** The tokens left after checking one value, or none when the check refuses. */
  function Scan(ts: seq<Token>, depth: nat): (r: Option<seq<Token>>)
    ensures r.Some? ==> |r.value| < |ts|
    decreases |ts|, 1
  {
    if depth > MAX_DEPTH || ts == [] then None
    else match ts[0]
      case OpenObject => ScanMembers(ts[1..], {}, depth)
      case OpenArray => ScanItems(ts[1..], depth)
      case CloseObject => None
      case CloseArray => None
      case _ => Some(ts[1..])
  }

  function ScanMembers(ts: seq<Token>, keys: set<string>, depth: nat): (r: Option<seq<Token>>)
    ensures r.Some? ==> |r.value| < |ts|
    decreases |ts|, 2
  {
    if ts == [] || ts[0].CloseArray? then None
    else if ts[0].CloseObject? then Some(ts[1..])
    else if !ts[0].Text? || ts[0].text in keys then None
    else
      var value := Scan(ts[1..], depth + 1);
      if value.None? then None else ScanMembers(value.value, keys + {ts[0].text}, depth)
  }

  function ScanItems(ts: seq<Token>, depth: nat): (r: Option<seq<Token>>)
    ensures r.Some? ==> |r.value| < |ts|
    decreases |ts|, 2
  {
    if ts == [] || ts[0].CloseObject? then None
    else if ts[0].CloseArray? then Some(ts[1..])
    else
      var value := Scan(ts, depth + 1);
      if value.None? then None else ScanItems(value.value, depth)
  }

  /** The decoder: a position in the token stream. */
  class Decoder {
    var rest: seq<Token>

    constructor (tokens: seq<Token>)
      ensures rest == tokens
    {
      rest := tokens;
    }

    function More(): bool
      reads this
    {
      rest != [] && !rest[0].CloseObject? && !rest[0].CloseArray?
    }

    method Next() returns (t: Option<Token>)
      modifies this
      ensures if old(rest) == [] then t == None && rest == []
              else t == Some(old(rest)[0]) && rest == old(rest)[1..]
    {
      if rest == [] {
        return None;
      }
      t := Some(rest[0]);
      rest := rest[1..];
    }

    method CheckKeys(depth: nat) returns (ok: bool)
      modifies this
      ensures ok <==> Scan(old(rest), depth).Some?
      ensures ok ==> rest == Scan(old(rest), depth).value
      decreases |rest|, 0
    {
      if depth > MAX_DEPTH {
        return false;
      }
      ghost var before := rest;
      var token := Next();
      if token.None? {
        return false;
      }
      if token.value.Text? || token.value.Other? {
        return true;
      }
      var closing := token.value;
      match token.value {
        case OpenObject =>
          closing := CloseObject;
          var keys := {};
          while More()
            invariant ScanMembers(before[1..], {}, depth) == ScanMembers(rest, keys, depth)
            invariant |rest| < |before|
            decreases |rest|
          {
            var key := Next();
            if !key.value.Text? || key.value.text in keys {
              return false;
            }
            keys := keys + {key.value.text};
            var fine := CheckKeys(depth + 1);
            if !fine {
              return false;
            }
          }
        case OpenArray =>
          closing := CloseArray;
          while More()
            invariant ScanItems(before[1..], depth) == ScanItems(rest, depth)
            invariant |rest| < |before|
            decreases |rest|
          {
            var fine := CheckKeys(depth + 1);
            if !fine {
              return false;
            }
          }
        case _ =>
          return false;
      }
      // The decoder itself refuses a closing delimiter of the other kind.
      token := Next();
      ok := token == Some(closing);
    }
  }

  // ----- The check meets its purpose -----

  /** Keys not yet seen, distinct, and fine values: how the members look from inside the loop. */
  ghost predicate Unseen(ms: seq<Member>, keys: set<string>) {
    && (forall i :: 0 <= i < |ms| ==> ms[i].key !in keys)
    && (forall i, j :: 0 <= i < j < |ms| ==> ms[i].key != ms[j].key)
    && forall m :: m in ms ==> NoRepeats(m.value)
  }

  lemma UnseenStep(ms: seq<Member>, keys: set<string>)
    requires ms != []
    ensures Unseen(ms, keys) <==> ms[0].key !in keys && NoRepeats(ms[0].value) && Unseen(ms[1..], keys + {ms[0].key})
  {
    assert ms == [ms[0]] + ms[1..];
    assert forall i :: 0 < i < |ms| ==> ms[i] == ms[1..][i - 1];
  }

  /** On the tokens of any value the check accepts exactly when no object repeats a key and no
      value lies deeper than sixteen levels, and then it has consumed exactly those tokens. */
  lemma {:induction false} ScanExact(v: Json, rest: seq<Token>, depth: nat)
    requires IsValue(v)
    ensures Scan(Tokens(v) + rest, depth) ==
            if NoRepeats(v) && depth + Height(v) <= 16 then Some(rest) else None
    decreases v, 1
  {
    var ts := Tokens(v) + rest;
    match v
    case Scalar(t) =>
      assert ts[1..] == rest;
    case Object(ms) =>
      assert ts[1..] == MemberTokens(ms) + ([CloseObject] + rest);
      MembersExact(ms, {}, rest, depth);
    case Array(vs) =>
      assert ts[1..] == ItemTokens(vs) + ([CloseArray] + rest);
      ItemsExact(vs, rest, depth);
  }

  lemma {:induction false} MembersExact(ms: seq<Member>, keys: set<string>, rest: seq<Token>, depth: nat)
    requires forall m :: m in ms ==> IsValue(m.value)
    ensures ScanMembers(MemberTokens(ms) + ([CloseObject] + rest), keys, depth) ==
            if Unseen(ms, keys) && (ms == [] || depth + 1 + TallestMember(ms) <= MAX_DEPTH) then Some(rest) else None
    decreases ms, 0
  {
    var ts := MemberTokens(ms) + ([CloseObject] + rest);
    if ms == [] {
      assert ts[1..] == rest;
    } else {
      var after := MemberTokens(ms[1..]) + ([CloseObject] + rest);
      assert ts == [Text(ms[0].key)] + (Tokens(ms[0].value) + after);
      assert ts[1..] == Tokens(ms[0].value) + after;
      assert ms[0] in ms;
      ScanExact(ms[0].value, after, depth + 1);
      MembersExact(ms[1..], keys + {ms[0].key}, rest, depth);
      UnseenStep(ms, keys);
    }
  }

  lemma {:induction false} ItemsExact(vs: seq<Json>, rest: seq<Token>, depth: nat)
    requires forall w :: w in vs ==> IsValue(w)
    ensures ScanItems(ItemTokens(vs) + ([CloseArray] + rest), depth) ==
            if (forall w :: w in vs ==> NoRepeats(w)) && (vs == [] || depth + 1 + TallestItem(vs) <= MAX_DEPTH)
            then Some(rest) else None
    decreases vs, 0
  {
    var ts := ItemTokens(vs) + ([CloseArray] + rest);
    if vs == [] {
      assert ts[1..] == rest;
    } else {
      var after := ItemTokens(vs[1..]) + ([CloseArray] + rest);
      assert ts == Tokens(vs[0]) + after;
      assert vs[0] in vs && vs == [vs[0]] + vs[1..];
      FirstToken(vs[0]);
      assert ts[0] == Tokens(vs[0])[0];
      ScanExact(vs[0], after, depth + 1);
      ItemsExact(vs[1..], rest, depth);
    }
  }

  lemma FirstToken(v: Json)
    requires IsValue(v)
    ensures Tokens(v) != [] && !Tokens(v)[0].CloseObject? && !Tokens(v)[0].CloseArray?
  {
  }
}
