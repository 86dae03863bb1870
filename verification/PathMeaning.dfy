/** Where a configured path leads: the home shorthand, dots and doubled slashes, in terms of the
    components that are typed. */
module PathMeaning {
  import opened Basics
  import opened Paths

  // ----- Splitting and resolving -----

  lemma Regrouped<T>(x: seq<T>, sep: seq<T>, rest: seq<T>, b: seq<T>)
    ensures x + sep + rest + sep + b == x + sep + (rest + sep + b)
  {
  }

  lemma SplitFirst<T>(x: seq<T>, sep: seq<T>, y: seq<T>, p: seq<seq<T>>, q: seq<seq<T>>)
    requires sep != [] && sep[0] !in x && Split(y, sep) == p + q
    ensures Split(x + sep + y, sep) == [x] + p + q
  {
    SplitAt(x, sep, y);
    assert [x] + (p + q) == [x] + p + q;
  }

  lemma SplitStep<T>(x: seq<T>, sep: seq<T>, rest: seq<T>, b: seq<T>)
    requires sep != [] && sep[0] !in x && Split(rest + sep + b, sep) == Split(rest, sep) + Split(b, sep)
    ensures Split(x + sep + rest + sep + b, sep) == Split(x + sep + rest, sep) + Split(b, sep)
  {
    SplitAt(x, sep, rest);
    SplitFirst(x, sep, rest + sep + b, Split(rest, sep), Split(b, sep));
    Regrouped(x, sep, rest, b);
  }

  /** Before the first separator, and after it. */
  lemma FirstPart<T>(a: seq<T>, c: T) returns (x: seq<T>, rest: seq<T>)
    requires c in a
    ensures a == x + [c] + rest && c !in x
  {
    var i := Finder([c])(a);
    FinderFirst(c, a);
    assert a[..|a|] == a;
    CutAt(a, [c], i);
    x, rest := a[..i], a[i + 1..];
  }

  /** Splitting goes through a separator between two texts. */
  lemma {:induction false} SplitConcat<T>(a: seq<T>, c: T, b: seq<T>)
    ensures Split(a + [c] + b, [c]) == Split(a, [c]) + Split(b, [c])
    decreases |a|
  {
    if c in a {
      var x, rest := FirstPart(a, c);
      SplitConcat(rest, c, b);
      SplitStep(x, [c], rest, b);
    } else {
      SplitAt(a, [c], b);
      SplitWhole(a, [c]);
    }
  }

  lemma SplitSlash(a: string, b: string)
    ensures Split(a + "/" + b, "/") == Split(a, "/") + Split(b, "/")
  {
    SplitConcat(a, '/', b);
  }

  /** A single part at the end. */
  lemma ResolveLast(xs: seq<string>, part: string)
    ensures Resolve(xs + [part]) == Push(Resolve(xs), part)
  {
    assert (xs + [part])[..|xs|] == xs;
  }

  /** What follows depends only on what is there so far. */
  lemma {:induction false} ResolveOn(xs: seq<string>, ys: seq<string>, zs: seq<string>)
    requires Resolve(xs) == Resolve(ys)
    ensures Resolve(xs + zs) == Resolve(ys + zs)
  {
    if zs == [] {
      assert xs + zs == xs && ys + zs == ys;
    } else {
      var z, last := zs[..|zs| - 1], zs[|zs| - 1];
      ResolveOn(xs, ys, z);
      ResolveLast(xs + z, last);
      ResolveLast(ys + z, last);
      AppendedLast(xs, zs);
      AppendedLast(ys, zs);
    }
  }

  lemma AppendedLast<T>(xs: seq<T>, zs: seq<T>)
    requires zs != []
    ensures xs + zs == xs + zs[..|zs| - 1] + [zs[|zs| - 1]]
  {
  }

  /** Empty parts and "." mean nothing, wherever they stand. */
  lemma ResolveSkips(xs: seq<string>, part: string, zs: seq<string>)
    requires part == "" || part == "."
    ensures Resolve(xs + [part] + zs) == Resolve(xs + zs)
  {
    ResolveLast(xs, part);
    ResolveOn(xs + [part], xs, zs);
  }

  /** ".." takes back the part before it, wherever they stand. */
  lemma ResolveCancels(xs: seq<string>, c: string, zs: seq<string>)
    requires c != "" && c != "." && c != ".."
    ensures Resolve(xs + [c] + [".."] + zs) == Resolve(xs + zs)
  {
    ResolveLast(xs, c);
    ResolveLast(xs + [c], "..");
    ResolveOn(xs + [c] + [".."], xs, zs);
  }

  /** ".." at the root means nothing. */
  lemma ResolveAtRoot(zs: seq<string>)
    ensures Resolve([".."] + zs) == Resolve(zs)
  {
    ResolveLast([], "..");
    assert [] + [".."] == [".."] && [] + zs == zs;
    ResolveOn([".."], [], zs);
  }

  lemma EnteredFrom(a: string, c: string)
    requires '/' !in c
    ensures Components(a + "/" + c) == Push(Components(a), c)
  {
    SplitSlash(a, c);
    SplitWhole(c, "/");
    ResolveLast(Split(a, "/"), c);
  }

  /** In a path a proper component is entered from what stands before it, and ".." after it takes it back. */
  lemma ParentCancels(a: string, c: string)
    requires Proper(c)
    ensures Components(a + "/" + c) == Components(a) + [c]
    ensures Components(a + "/" + c + "/" + "..") == Components(a)
  {
    EnteredFrom(a, c);
    EnteredFrom(a + "/" + c, "..");
  }

  // ----- Characters of a cleaned path -----

  lemma {:induction false} SlashedHolds(cs: seq<string>, c: char, i: nat)
    requires i < |cs| && c in cs[i]
    ensures c in Slashed(cs)
  {
    if i > 0 {
      SlashedHolds(cs[1..], c, i - 1);
    }
  }

  /** Some component holds a NUL. */
  ghost predicate Tainted(cs: seq<string>) {
    exists i :: 0 <= i < |cs| && '\0' in cs[i]
  }

  lemma CleanTainted(s: string)
    ensures '\0' in Clean(s) <==> Tainted(Components(s))
  {
    var cs := Components(s);
    if Tainted(cs) {
      var i :| 0 <= i < |cs| && '\0' in cs[i];
      SlashedHolds(cs, '\0', i);
    } else {
      forall i | 0 <= i < |cs| ensures Avoids(cs[i], '\0') {
      }
      SlashedAvoids(cs, '\0');
      assert Avoids(Slashed(cs), '\0');
    }
  }

  // ----- Normalizing -----

  /** The normalized path is there exactly if `ok`, and then it is the clean path of these components. */
  ghost predicate LeadsTo(r: Option<string>, cs: seq<string>, ok: bool) {
    if ok then r == Some(if cs == [] then "/" else "/" + JoinParts(cs)) && Components(r.value) == cs else r == None
  }

  lemma {:induction false} SlashedJoins(cs: seq<string>)
    requires cs != []
    ensures Slashed(cs) == "/" + JoinParts(cs)
  {
    if |cs| > 1 {
      SlashedJoins(cs[1..]);
      SlashedStep("/" + cs[0], cs[1..]);
    }
  }

  lemma CleanLeads(s: string)
    ensures LeadsTo(Some(Clean(s)), Components(s), true)
  {
    CleanIsCanonical(s);
    if Components(s) != [] {
      SlashedJoins(Components(s));
    }
  }

  /** A cleaned text that is cleaned once more. */
  lemma CleanedLeads(s: string)
    ensures LeadsTo(if '\0' in Clean(s) then None else Some(Clean(Clean(s))), Components(s), !Tainted(Components(s)))
  {
    CleanTainted(s);
    CleanIsCanonical(s);
    CleanLeads(s);
  }

  /** The home directory alone. */
  lemma NormalizedHome(home: string)
    ensures LeadsTo(NormalizePath("~", home), Components(home), home != "" && home[0] == '/' && '\0' !in home)
  {
    CleanLeads(home);
  }

  /** A path under the home directory: the components of both, resolved together. A NUL matters only if
      it is still there then. */
  lemma NormalizedUnderHome(home: string, r: string)
    requires home != "" && home[0] == '/'
    ensures var cs := Resolve(Split(home, "/") + Split(r, "/"));
            LeadsTo(NormalizePath("~/" + r, home), cs, !Tainted(cs))
  {
    assert ("~/" + r)[2..] == r;
    var joined := HomeJoined(home, r);
    if r == "" {
      SplitWhole("", "/");
      ResolveSkips(Split(home, "/"), "", []);
      assert Split(home, "/") + [""] + [] == Split(home, "/") + Split(r, "/");
      assert Split(home, "/") + [] == Split(home, "/");
    } else {
      assert home + "/" + r == home + ("/" + r);
      SplitSlash(home, r);
    }
    CleanedLeads(joined);
    CleanIsCanonical(joined);
  }

  /** Without a home directory the rest stands for itself; a relative one is refused. */
  lemma NormalizedWithoutHome(home: string, r: string)
    requires home == "" || home[0] != '/'
    ensures LeadsTo(NormalizePath("~/" + r, home), Components(r),
                    home == "" && r != "" && r[0] == '/' && !Tainted(Components(r)))
  {
    assert ("~/" + r)[2..] == r;
    CleanedLeads(r);
    CleanIsCanonical(r);
  }

  /** Any other text stands for itself, and only if it is absolute and holds no NUL. */
  lemma NormalizedAsIs(value: string, home: string)
    requires value != "~" && value[..if |value| < 2 then |value| else 2] != "~/"
    ensures LeadsTo(NormalizePath(value, home), Components(value), value != "" && value[0] == '/' && '\0' !in value)
  {
    CleanLeads(value);
  }

  lemma {:induction false} JoinedSplits(cs: seq<string>)
    requires cs != [] && forall i :: 0 <= i < |cs| ==> '/' !in cs[i]
    ensures Split(JoinParts(cs), "/") == cs
  {
    SplitWhole(cs[0], "/");
    if |cs| > 1 {
      JoinedSplits(cs[1..]);
      SplitSlash(cs[0], JoinParts(cs[1..]));
    }
  }

  lemma {:induction false} ResolveAppended(xs: seq<string>, cs: seq<string>)
    requires AllProper(cs)
    ensures Resolve(xs + cs) == Resolve(xs) + cs
  {
    if cs == [] {
      assert xs + cs == xs;
    } else {
      var p := cs[..|cs| - 1];
      ResolveAppended(xs, p);
      ResolveLast(xs + p, cs[|cs| - 1]);
      AppendedLast(xs, cs);
    }
  }

  lemma NothingTainted(home: string)
    requires '\0' !in home
    ensures !Tainted(Components(home))
  {
    CleanTainted(home);
    CleanAvoids(home, '\0');
    assert Avoids(Clean(home), '\0');
  }

  lemma NamesResolved(home: string, cs: seq<string>)
    requires cs != [] && AllProper(cs)
    ensures Resolve(Split(home, "/") + Split(JoinParts(cs), "/")) == Components(home) + cs
  {
    forall i | 0 <= i < |cs| ensures '/' !in cs[i] {
      assert Proper(cs[i]);
    }
    JoinedSplits(cs);
    ResolveAppended(Split(home, "/"), cs);
  }

  /** Plain names after "~/" are entered one after the other from the home directory, so the path lies
      in it. */
  lemma NamesUnderHome(home: string, cs: seq<string>)
    requires home != "" && home[0] == '/' && '\0' !in home
    requires cs != [] && AllProper(cs) && !Tainted(cs)
    ensures var r := NormalizePath("~/" + JoinParts(cs), home);
            r.Some? && Components(r.value) == Components(home) + cs && Within(r.value, home)
  {
    NothingTainted(home);
    NamesResolved(home, cs);
    NormalizedUnderHome(home, JoinParts(cs));
    assert !Tainted(Components(home) + cs);
    WithinIsPrefix(NormalizePath("~/" + JoinParts(cs), home).value, home);
  }
}
