/** What several parts of the model share: optional values, the 64-bit range, and splitting text. */
module Basics {

  datatype Option<+T> = None | Some(value: T)

  const UINT64_LIMIT: int := 0x1_0000_0000_0000_0000

  function Max(a: int, b: int): int { if a < b then b else a }

  /** Every element converted, or nothing when one of them cannot be. */
  function MapAll<A, B>(f: A -> Option<B>, xs: seq<A>): Option<seq<B>> {
    if xs == [] then Some([]) else
      var before, last := MapAll(f, xs[..|xs| - 1]), f(xs[|xs| - 1]);
      if before.None? || last.None? then None else Some(before.value + [last.value])
  }

  lemma {:induction false} MapAllShape<A, B>(f: A -> Option<B>, xs: seq<A>)
    ensures MapAll(f, xs).Some? <==> forall i :: 0 <= i < |xs| ==> f(xs[i]).Some?
    ensures MapAll(f, xs).Some? ==>
              |MapAll(f, xs).value| == |xs| && forall i :: 0 <= i < |xs| ==> f(xs[i]) == Some(MapAll(f, xs).value[i])
  {
    if xs != [] {
      MapAllShape(f, xs[..|xs| - 1]);
    }
  }

  lemma MapAllIs<A, B>(f: A -> Option<B>, xs: seq<A>, ys: seq<B>)
    requires |ys| == |xs| && forall i :: 0 <= i < |xs| ==> f(xs[i]) == Some(ys[i])
    ensures MapAll(f, xs) == Some(ys)
  {
    MapAllShape(f, xs);
    assert MapAll(f, xs).value == ys;
  }

  // ----- Splitting -----

  /** The separator stands at this position. */
  predicate At<T(==)>(s: seq<T>, sep: seq<T>, i: nat) {
    i + |sep| <= |s| && forall k :: 0 <= k < |sep| ==> sep[k] == s[i + k]
  }

  /** The first position from `k` on at which the separator stands, or the length. */
  function Find<T(==)>(s: seq<T>, sep: seq<T>, k: nat): (i: nat)
    requires k <= |s|
    ensures k <= i <= |s| && (i < |s| ==> At(s, sep, i))
    ensures forall j :: k <= j < i ==> !At(s, sep, j)
    decreases |s| - k
  {
    if k == |s| || At(s, sep, k) then k else Find(s, sep, k + 1)
  }

  /** Where a separator stands in a text, or the length of the text. */
  function Finder<T(==)>(sep: seq<T>): seq<T> -> nat {
    s => Find(s, sep, 0)
  }

  /** The parts of a text, given how separators of length `w` are found. */
  function SplitWith<T>(find: seq<T> -> nat, w: nat, s: seq<T>): (parts: seq<seq<T>>)
    requires w > 0
    ensures parts != []
    decreases |s|
  {
    var i := find(s);
    if i + w > |s| then [s] else [s[..i]] + SplitWith(find, w, s[i + w..])
  }

  function Split<T(==)>(s: seq<T>, sep: seq<T>): (parts: seq<seq<T>>)
    requires sep != []
    ensures parts != []
  {
    SplitWith(Finder(sep), |sep|, s)
  }

  // ----- Finding -----

  lemma {:induction false} FindIs<T>(s: seq<T>, sep: seq<T>, k: nat, i: nat)
    requires k <= i <= |s| && (i < |s| ==> At(s, sep, i)) && forall j :: k <= j < i ==> !At(s, sep, j)
    ensures Find(s, sep, k) == i
    decreases i - k
  {
    if k < i {
      assert !At(s, sep, k);
      FindIs(s, sep, k + 1, i);
    }
  }

  /** A separator stands only where its first element does. */
  lemma NotAt<T>(s: seq<T>, sep: seq<T>, j: nat)
    requires sep != [] && j < |s| && s[j] != sep[0]
    ensures !At(s, sep, j)
  {
    assert sep[0] != s[j + 0];
  }

  lemma FoundAfter<T>(a: seq<T>, sep: seq<T>, b: seq<T>)
    requires sep != [] && sep[0] !in a
    ensures Finder(sep)(a + sep + b) == |a|
  {
    var s := a + sep + b;
    assert At(s, sep, |a|);
    forall j | 0 <= j < |a| ensures !At(s, sep, j) {
      assert s[j] == a[j];
      NotAt(s, sep, j);
    }
    FindIs(s, sep, 0, |a|);
  }

  lemma NotFound<T>(a: seq<T>, sep: seq<T>)
    requires sep != [] && sep[0] !in a
    ensures Finder(sep)(a) == |a|
  {
    forall j | 0 <= j < |a| ensures !At(a, sep, j) {
      NotAt(a, sep, j);
    }
    FindIs(a, sep, 0, |a|);
  }

  /** What is found is the separator. */
  ghost predicate Cuts<T(!new)>(find: seq<T> -> nat, sep: seq<T>) {
    forall s :: find(s) + |sep| <= |s| ==> s == s[..find(s)] + sep + s[find(s) + |sep|..]
  }

  lemma FinderCuts<T(!new)>(sep: seq<T>)
    requires sep != []
    ensures Cuts(Finder(sep), sep)
  {
    forall s: seq<T> | Finder(sep)(s) + |sep| <= |s|
      ensures s == s[..Finder(sep)(s)] + sep + s[Finder(sep)(s) + |sep|..]
    {
      CutAt(s, sep, Find(s, sep, 0));
    }
  }

  lemma CutAt<T>(s: seq<T>, sep: seq<T>, i: nat)
    requires At(s, sep, i)
    ensures s == s[..i] + sep + s[i + |sep|..]
  {
  }

  /** Before a separator of one element there is no such element. */
  lemma FinderFirst<T>(c: T, s: seq<T>)
    ensures Finder([c])(s) <= |s| && c !in s[..Finder([c])(s)]
  {
    var i := Find(s, [c], 0);
    forall j | 0 <= j < i ensures s[..i][j] != c {
      assert !At(s, [c], j);
    }
  }

  // ----- The parts -----

  lemma SplitAtWith<T>(find: seq<T> -> nat, a: seq<T>, sep: seq<T>, b: seq<T>)
    requires sep != [] && find(a + sep + b) == |a|
    ensures SplitWith(find, |sep|, a + sep + b) == [a] + SplitWith(find, |sep|, b)
  {
    var s := a + sep + b;
    assert s[..|a|] == a && s[|a| + |sep|..] == b;
  }

  /** A part without the separator's first element ends at the next separator. */
  lemma SplitAt<T>(a: seq<T>, sep: seq<T>, b: seq<T>)
    requires sep != [] && sep[0] !in a
    ensures Split(a + sep + b, sep) == [a] + Split(b, sep)
  {
    FoundAfter(a, sep, b);
    SplitAtWith(Finder(sep), a, sep, b);
  }

  lemma SplitWhole<T>(a: seq<T>, sep: seq<T>)
    requires sep != [] && sep[0] !in a
    ensures Split(a, sep) == [a]
  {
    NotFound(a, sep);
  }

  lemma SplitTwoWith<T(!new)>(find: seq<T> -> nat, s: seq<T>, sep: seq<T>)
    requires sep != [] && Cuts(find, sep) && |SplitWith(find, |sep|, s)| == 2
    ensures s == SplitWith(find, |sep|, s)[0] + sep + SplitWith(find, |sep|, s)[1]
  {
    var i := find(s);
    var rest := s[i + |sep|..];
    assert |SplitWith(find, |sep|, rest)| == 1;
    assert SplitWith(find, |sep|, rest) == [rest];
  }

  /** Splitting into two parts is undone by putting the separator back. */
  lemma SplitTwo<T(!new)>(s: seq<T>, sep: seq<T>)
    requires sep != [] && |Split(s, sep)| == 2
    ensures s == Split(s, sep)[0] + sep + Split(s, sep)[1]
  {
    FinderCuts(sep);
    SplitTwoWith(Finder(sep), s, sep);
  }

  /** No part has a separator of one element. */
  lemma {:induction false} SplitAvoidsSeparator<T>(s: seq<T>, c: T, i: nat)
    requires i < |Split(s, [c])|
    ensures c !in Split(s, [c])[i]
    decreases |s|
  {
    var e := Finder([c])(s);
    FinderFirst(c, s);
    if e == |s| {
      assert s[..e] == s;
    } else if i > 0 {
      SplitAvoidsSeparator(s[e + 1..], c, i - 1);
    }
  }

  /** Every element of a part stands somewhere in the whole. */
  lemma {:induction false} SplitElement<T>(find: seq<T> -> nat, w: nat, s: seq<T>, i: nat, j: nat) returns (m: nat)
    requires w > 0 && i < |SplitWith(find, w, s)| && j < |SplitWith(find, w, s)[i]|
    ensures m < |s| && s[m] == SplitWith(find, w, s)[i][j]
    decreases |s|
  {
    var e := find(s);
    m := j;
    if e + w <= |s| && i > 0 {
      m := SplitElement(find, w, s[e + w..], i - 1, j);
      m := m + e + w;
    }
  }
}
