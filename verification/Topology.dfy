/** Generated directory topologies: the names and places of their files and directories. */
module Topology {
  import opened Basics
  import T = ProcText

  /** A path below the root, as its components. */
  type Path = seq<string>

  datatype Shape = Wide | Deep | Healthy
  datatype Layout = Layout(shape: Shape, files: nat) {
    function Levels(): nat {
      match shape case Deep => 64 case Healthy => 32 case Wide => 1
    }

    predicate Valid() {
      files >= Levels() && files <= 1000000 && files % Levels() == 0 && (shape == Healthy ==> files == 512)
    }

    /** Files for each level. */
    function Share(): nat
      requires Valid()
    {
      files / Levels()
    }

    function DirectoryCount(): nat {
      if shape == Healthy then 33 else Levels()
    }
  }

  // ----- Names -----

  /** A decimal padded with zeros to at least the width. */
  function Padded(n: nat, width: nat): string {
    Zeros(width - |T.Decimal(n)|) + T.Decimal(n)
  }

  function Zeros(k: int): string {
    if k <= 0 then "" else "0" + Zeros(k - 1)
  }

  function FileName(n: nat): string { "f" + Padded(n, 7) }
  function LevelName(i: nat): string { "d" + Padded(i, 2) }
  function BranchName(i: nat): string { "branch" + Padded(i, 2) }

  ghost predicate Digits(s: string) {
    forall i :: 0 <= i < |s| ==> T.IsDigit(s[i])
  }

  lemma {:induction false} ZerosValue(k: int, s: string)
    requires Digits(s)
    ensures Digits(Zeros(k) + s) && T.Value(Zeros(k) + s) == T.Value(s)
  {
    if k <= 0 {
      assert Zeros(k) + s == s;
    } else {
      ZerosValue(k - 1, s);
      LeadingZero(Zeros(k - 1) + s);
      assert Zeros(k) + s == "0" + (Zeros(k - 1) + s);
    }
  }

  lemma {:induction false} LeadingZero(s: string)
    requires Digits(s)
    ensures Digits("0" + s) && T.Value("0" + s) == T.Value(s)
  {
    var z := "0" + s;
    if s == "" {
      assert z[..0] == "";
    } else {
      LeadingZero(s[..|s| - 1]);
      assert z[..|z| - 1] == "0" + s[..|s| - 1];
    }
  }

  lemma PaddedValue(n: nat, width: nat)
    ensures Padded(n, width) != "" && Digits(Padded(n, width)) && T.Value(Padded(n, width)) == n
  {
    ZerosValue(width - |T.Decimal(n)|, T.Decimal(n));
    T.ValueOfDecimal(n);
  }

  lemma PaddedInjective(m: nat, n: nat, width: nat)
    requires Padded(m, width) == Padded(n, width)
    ensures m == n
  {
    PaddedValue(m, width);
    PaddedValue(n, width);
  }

  /** The ordinal that a file name spells, whatever its padding. */
  function Ordinal(name: string): Option<nat> {
    if name == "" || name[0] != 'f' || name == "f" then None
    else if exists i :: 1 <= i < |name| && !T.IsDigit(name[i]) then None
    else
      assert forall i :: 0 <= i < |name[1..]| ==> name[1..][i] == name[i + 1];
      Some(T.Value(name[1..]))
  }

  lemma OrdinalOfName(n: nat)
    ensures Ordinal(FileName(n)) == Some(n)
  {
    PaddedValue(n, 7);
    var name := FileName(n);
    assert name[1..] == Padded(n, 7);
    assert forall i :: 1 <= i < |name| ==> name[i] == Padded(n, 7)[i - 1];
  }

  // ----- Places -----

  function Chain(k: nat): Path {
    if k == 0 then [] else Chain(k - 1) + [LevelName(k)]
  }

  function LevelOf(t: Layout, n: nat): (k: nat)
    requires t.Valid() && n < t.files
    ensures k < t.Levels()
  {
    LevelBound(t, n);
    n / t.Share()
  }

  function Parent(t: Layout, n: nat): Path
    requires t.Valid() && n < t.files
  {
    if t.shape == Healthy then [BranchName(n / 16)] else Chain(LevelOf(t, n))
  }

  function PathOf(t: Layout, n: nat): Path
    requires t.Valid() && n < t.files
  {
    Parent(t, n) + [FileName(n)]
  }

  predicate DirectoryAllowed(t: Layout, dir: Path) {
    dir == [] ||
    match t.shape
    case Wide => false
    case Healthy => exists i: nat :: i < 32 && dir == [BranchName(i)]
    case Deep => |dir| <= 63 && dir == Chain(|dir|)
  }

  lemma {:induction false} ChainLength(k: nat)
    ensures |Chain(k)| == k
  {
    if k > 0 {
      ChainLength(k - 1);
    }
  }

  lemma QuotientBelow(n: nat, s: nat, l: nat)
    requires s > 0 && n < s * l
    ensures n / s < l
  {
    assert n == s * (n / s) + n % s;
  }

  lemma LevelBound(t: Layout, n: nat)
    requires t.Valid() && n < t.files
    ensures t.Share() > 0 && t.Share() * t.Levels() == t.files && n / t.Share() < t.Levels()
  {
    var s, l := t.Share(), t.Levels();
    assert s * l == t.files;
    QuotientBelow(n, s, l);
  }

  lemma PathInjective(t: Layout, m: nat, n: nat)
    requires t.Valid() && m < t.files && n < t.files && PathOf(t, m) == PathOf(t, n)
    ensures m == n
  {
    var p := PathOf(t, m);
    assert p[|p| - 1] == FileName(m) == FileName(n);
    OrdinalOfName(m);
    OrdinalOfName(n);
  }

  // ----- How many directories -----

  /** The i-th prescribed directory. */
  function Place(t: Layout, i: nat): Path {
    if t.shape == Healthy then (if i == 0 then [] else [BranchName(i - 1)]) else Chain(i)
  }

  ghost function Places(t: Layout, n: nat): set<Path> {
    set i: nat | i < n :: Place(t, i)
  }

  ghost function Prescribed(t: Layout): set<Path> {
    Places(t, t.DirectoryCount())
  }

  lemma PlaceInjective(t: Layout, i: nat, j: nat)
    requires Place(t, i) == Place(t, j)
    ensures i == j
  {
    if t.shape == Healthy {
      if i > 0 && j > 0 {
        var b := BranchName(i - 1);
        assert b[6..] == Padded(i - 1, 2) && BranchName(j - 1)[6..] == Padded(j - 1, 2);
        PaddedInjective(i - 1, j - 1, 2);
      }
    } else {
      ChainLength(i);
      ChainLength(j);
    }
  }

  /** The values of an injective function. */
  ghost function Image<T(!new)>(f: nat -> T, n: nat): set<T> {
    set i: nat | i < n :: f(i)
  }

  lemma {:induction false} ImageCount<T(!new)>(f: nat -> T, n: nat)
    requires forall i: nat, j: nat :: i < j < n ==> f(i) != f(j)
    ensures |Image(f, n)| == n
  {
    if n > 0 {
      ImageCount(f, n - 1);
      assert Image(f, n) == Image(f, n - 1) + {f(n - 1)};
    } else {
      assert Image(f, n) == {};
    }
  }

  lemma PlacesCount(t: Layout, n: nat)
    ensures |Places(t, n)| == n
  {
    var f := (i: nat) => Place(t, i);
    forall i: nat, j: nat | i < j < n ensures f(i) != f(j) {
      if f(i) == f(j) {
        PlaceInjective(t, i, j);
      }
    }
    ImageCount(f, n);
    assert forall i: nat :: f(i) == Place(t, i);
    assert Places(t, n) == Image(f, n);
  }

  lemma PrescribedCount(t: Layout)
    ensures |Prescribed(t)| == t.DirectoryCount()
  {
    PlacesCount(t, t.DirectoryCount());
  }

  /** The allowed directories are exactly the prescribed ones. */
  lemma AllowedIsPrescribed(t: Layout, dir: Path)
    ensures DirectoryAllowed(t, dir) <==> dir in Prescribed(t)
  {
    if DirectoryAllowed(t, dir) {
      if dir == [] {
        assert Place(t, 0) == dir;
      } else if t.shape == Healthy {
        var i: nat :| i < 32 && dir == [BranchName(i)];
        assert Place(t, i + 1) == dir;
      } else {
        assert Place(t, |dir|) == dir;
      }
    }
    if dir in Prescribed(t) {
      var i: nat :| i < t.DirectoryCount() && dir == Place(t, i);
      ChainLength(i);
    }
  }

  ghost function FilePaths(t: Layout, n: nat): set<Path>
    requires t.Valid() && n <= t.files
  {
    set i: nat | i < n :: PathOf(t, i)
  }
}
