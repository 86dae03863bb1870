/** How the files and directories of a generated topology are named, in digits. */
module TopologyNames {
  import opened Basics
  import opened Topology
  import T = ProcText

  /** The name is the lead followed by exactly so many digits of this value. */
  ghost predicate Spells(name: string, lead: string, digits: nat, value: nat) {
    && |name| == |lead| + digits && lead <= name && Digits(name[|lead|..]) && T.Value(name[|lead|..]) == value
  }

  lemma ZerosLength(k: int)
    ensures |Zeros(k)| == Max(k, 0)
  {
  }

  lemma PaddedLength(n: nat, width: nat)
    requires width > 0 && n < T.Pow10(width)
    ensures |Padded(n, width)| == width
  {
    T.DecimalLength(n, width);
    ZerosLength(width - |T.Decimal(n)|);
  }

  lemma LastDigit(x: nat, d: int, y: nat, e: int)
    requires 0 <= d < 10 && 0 <= e < 10 && x * 10 + d == y * 10 + e
    ensures x == y && d == e
  {
  }

  lemma {:induction false} SameDigits(a: string, b: string)
    requires |a| == |b| && Digits(a) && Digits(b) && T.Value(a) == T.Value(b)
    ensures a == b
  {
    if a != "" {
      var n := |a| - 1;
      var x, y := T.Value(a[..n]), T.Value(b[..n]);
      assert T.IsDigit(a[n]) && T.IsDigit(b[n]);
      LastDigit(x, T.DigitValue(a[n]), y, T.DigitValue(b[n]));
      SameDigits(a[..n], b[..n]);
      assert a == a[..n] + [a[n]] && b == b[..n] + [b[n]];
    }
  }

  lemma SpellsPadded(lead: string, digits: nat, value: nat)
    requires digits > 0 && value < T.Pow10(digits)
    ensures Spells(lead + Padded(value, digits), lead, digits, value)
  {
    PaddedLength(value, digits);
    PaddedValue(value, digits);
    assert (lead + Padded(value, digits))[|lead|..] == Padded(value, digits);
  }

  /** There is only one such name. */
  lemma SpellsOne(a: string, b: string, lead: string, digits: nat, value: nat)
    requires Spells(a, lead, digits, value) && Spells(b, lead, digits, value)
    ensures a == b
  {
    SameDigits(a[|lead|..], b[|lead|..]);
    assert a == a[..|lead|] + a[|lead|..] && b == b[..|lead|] + b[|lead|..];
    assert a[..|lead|] == lead == b[..|lead|];
  }

  lemma Powers()
    ensures T.Pow10(2) == 100 && T.Pow10(7) == 10000000
  {
    assert T.Pow10(3) == 1000 && T.Pow10(5) == 100 * T.Pow10(3);
  }

  lemma NamesSpell(n: nat, name: string)
    ensures n < 100 ==> (Spells(name, "d", 2, n) <==> name == LevelName(n))
    ensures n < 100 ==> (Spells(name, "branch", 2, n) <==> name == BranchName(n))
    ensures n < 10000000 ==> (Spells(name, "f", 7, n) <==> name == FileName(n))
  {
    Powers();
    if n < 100 {
      SpellsPadded("d", 2, n);
      SpellsPadded("branch", 2, n);
      if Spells(name, "d", 2, n) { SpellsOne(name, LevelName(n), "d", 2, n); }
      if Spells(name, "branch", 2, n) { SpellsOne(name, BranchName(n), "branch", 2, n); }
    }
    if n < 10000000 {
      SpellsPadded("f", 7, n);
      if Spells(name, "f", 7, n) { SpellsOne(name, FileName(n), "f", 7, n); }
    }
  }

  // ----- Layouts -----

  /** The valid layouts and how many directories each has, the root included. */
  lemma ValidExactly(t: Layout)
    ensures t.Valid() <==> match t.shape
                           case Wide => 1 <= t.files <= 1000000
                           case Deep => 64 <= t.files <= 1000000 && t.files % 64 == 0
                           case Healthy => t.files == 512
    ensures t.DirectoryCount() == match t.shape case Wide => 1 case Deep => 64 case Healthy => 33
  {
  }

  /** The path is a chain of level directories "d01", "d02" and so on. */
  ghost predicate LevelsDown(dir: Path) {
    forall k :: 0 <= k < |dir| ==> Spells(dir[k], "d", 2, k + 1)
  }

  lemma {:induction false} ChainSpells(dir: Path)
    requires |dir| < 99
    ensures dir == Chain(|dir|) <==> LevelsDown(dir)
  {
    if dir != [] {
      var n := |dir| - 1;
      ChainSpells(dir[..n]);
      NamesSpell(n + 1, dir[n]);
      ChainLength(n);
      assert dir == dir[..n] + [dir[n]];
      if dir == Chain(n + 1) {
        assert dir[..n] == Chain(n) && dir[n] == LevelName(n + 1);
        assert LevelsDown(dir[..n]);
        forall k | 0 <= k < |dir| ensures Spells(dir[k], "d", 2, k + 1) {
          if k < n {
            assert dir[..n][k] == dir[k];
          }
        }
      }
      if LevelsDown(dir) {
        forall k | 0 <= k < n ensures Spells(dir[..n][k], "d", 2, k + 1) {
        }
        assert Spells(dir[n], "d", 2, n + 1);
      }
    }
  }

  /** File `n` stands in the root of a wide layout, in the directory of its level below the root of a deep
      one, each level a directory in the one before, and in one of thirty-two branches of a healthy one,
      sixteen files to each; its name is "f" and its number in seven digits. */
  ghost predicate StandsAt(t: Layout, n: nat, p: Path)
    requires t.Valid()
  {
    && p != [] && Spells(p[|p| - 1], "f", 7, n)
    && match t.shape
       case Wide => |p| == 1
       case Deep => |p| - 1 == n / (t.files / 64) && LevelsDown(p[..|p| - 1])
       case Healthy => |p| == 2 && Spells(p[0], "branch", 2, n / 16)
  }

  lemma PathExactly(t: Layout, n: nat, p: Path)
    requires t.Valid() && n < t.files
    ensures p == PathOf(t, n) <==> StandsAt(t, n, p)
  {
    ValidExactly(t);
    LevelBound(t, n);
    var parent := Parent(t, n);
    ChainLength(LevelOf(t, n));
    if p != [] {
      var dir, name := p[..|p| - 1], p[|p| - 1];
      assert p == dir + [name];
      NamesSpell(n, name);
      assert p == PathOf(t, n) <==> dir == parent && name == FileName(n);
      if t.shape == Healthy {
        if dir != [] {
          NamesSpell(n / 16, dir[0]);
        }
      } else if |dir| == LevelOf(t, n) {
        ChainSpells(dir);
      }
    }
  }

  /** The prescribed directories: the root, and below it nothing, sixty-three levels or thirty-two
      branches. */
  lemma PrescribedExactly(t: Layout, dir: Path)
    ensures dir in Prescribed(t) <==>
            dir == [] ||
            match t.shape
            case Wide => false
            case Deep => |dir| <= 63 && LevelsDown(dir)
            case Healthy => |dir| == 1 && exists i: nat :: i < 32 && Spells(dir[0], "branch", 2, i)
  {
    AllowedIsPrescribed(t, dir);
    if |dir| <= 63 {
      ChainSpells(dir);
    }
    if |dir| == 1 {
      forall i: nat | i < 32 ensures dir == [BranchName(i)] <==> Spells(dir[0], "branch", 2, i) {
        NamesSpell(i, dir[0]);
      }
    }
  }

  /** A listed name stands for a number exactly if it is "f" followed by digits of that value. */
  lemma OrdinalExactly(name: string, n: nat)
    ensures Ordinal(name) == Some(n) <==> |name| > 1 && Spells(name, "f", |name| - 1, n)
  {
    if |name| > 1 {
      assert forall i :: 1 <= i < |name| ==> name[i] == name[1..][i - 1];
      assert "f" <= name <==> name[0] == 'f';
    }
  }
}
