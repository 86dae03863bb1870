/** Absolute path text: cleaning, the home shorthand, and the directory-boundary containment test. */
module Paths {
  import opened Basics

  /** The path components that a cleaned absolute path is made of. */
  ghost predicate Proper(c: string) {
    c != "" && c != "." && c != ".." && '/' !in c
  }

  ghost predicate AllProper(cs: seq<string>) {
    forall i :: 0 <= i < |cs| ==> Proper(cs[i])
  }

  predicate IsAbs(s: string) {
    s != "" && s[0] == '/'
  }

  // ----- Cleaning -----

  function Push(stack: seq<string>, part: string): seq<string> {
    if part == "" || part == "." then stack
    else if part == ".." then (if stack == [] then [] else stack[..|stack| - 1])
    else stack + [part]
  }

  function Resolve(parts: seq<string>): seq<string> {
    if parts == [] then [] else Push(Resolve(parts[..|parts| - 1]), parts[|parts| - 1])
  }

  function Render(cs: seq<string>): string {
    if cs == [] then "/" else Slashed(cs)
  }

  function Slashed(cs: seq<string>): string {
    if cs == [] then "" else "/" + cs[0] + Slashed(cs[1..])
  }

  function Components(s: string): seq<string> {
    Resolve(Split(s, "/"))
  }

  /** filepath.Clean of an absolute path. */
  function Clean(s: string): string {
    Render(Components(s))
  }

  /** filepath.Join of the home directory and a relative rest, before its cleaning. */
  function HomeJoined(home: string, rest: string): string {
    if home == "" then rest else if rest == "" then home else home + "/" + rest
  }

  function Expanded(value: string, home: string): string {
    if value == "~" then home
    else if "~/" <= value then
      var joined := HomeJoined(home, value[2..]);
      // Joining cleans; a relative result stays relative and is refused below.
      if IsAbs(joined) then Clean(joined) else joined
    else value
  }

  function NormalizePath(value: string, home: string): Option<string> {
    var expanded := Expanded(value, home);
    if '\0' in expanded || !IsAbs(expanded) then None else Some(Clean(expanded))
  }

  // ----- Containment -----

  function CommonLength(a: seq<string>, b: seq<string>): (k: nat)
    ensures k <= |a| && k <= |b| && a[..k] == b[..k]
    ensures k < |a| && k < |b| ==> a[k] != b[k]
  {
    if a == [] || b == [] || a[0] != b[0] then 0 else
      var k := 1 + CommonLength(a[1..], b[1..]);
      assert a[..k] == [a[0]] + a[1..][..k - 1] && b[..k] == [b[0]] + b[1..][..k - 1];
      k
  }

  function Ups(n: nat): seq<string> {
    if n == 0 then [] else [".."] + Ups(n - 1)
  }

  function JoinParts(ps: seq<string>): string
    requires ps != []
  {
    if |ps| == 1 then ps[0] else ps[0] + "/" + JoinParts(ps[1..])
  }

  /** filepath.Rel of two cleaned absolute paths, given by their components. */
  function Rel(root: seq<string>, path: seq<string>): string {
    var k := CommonLength(root, path);
    var parts := Ups(|root| - k) + path[k..];
    if parts == [] then "." else JoinParts(parts)
  }

  /** `path` is `root` or below it. */
  predicate Within(path: string, root: string) {
    var rel := Rel(Components(root), Components(path));
    rel != ".." && !("../" <= rel)
  }

  // ----- Cleaning is canonical -----

  lemma {:induction false} ResolveProper(parts: seq<string>)
    requires forall i :: 0 <= i < |parts| ==> '/' !in parts[i]
    ensures AllProper(Resolve(parts))
  {
    if parts != [] {
      ResolveProper(parts[..|parts| - 1]);
    }
  }

  lemma ComponentsProper(s: string)
    ensures AllProper(Components(s))
  {
    forall i | 0 <= i < |Split(s, "/")| ensures '/' !in Split(s, "/")[i] {
      SplitAvoidsSeparator(s, '/', i);
    }
    ResolveProper(Split(s, "/"));
  }

  lemma ResolveKeeps(cs: seq<string>)
    requires cs != [] && Proper(cs[|cs| - 1])
    ensures Resolve(cs) == Resolve(cs[..|cs| - 1]) + [cs[|cs| - 1]]
  {
  }

  lemma {:induction false} ResolveProperIsSame(cs: seq<string>)
    requires AllProper(cs)
    ensures Resolve(cs) == cs
  {
    if cs != [] {
      ResolveProperIsSame(cs[..|cs| - 1]);
      ResolveKeeps(cs);
    }
  }

  lemma {:induction false} ResolveBlank(cs: seq<string>)
    ensures Resolve([""] + cs) == Resolve(cs)
  {
    var all := [""] + cs;
    if cs == [] {
      assert all[..0] == [];
    } else {
      assert all[..|all| - 1] == [""] + cs[..|cs| - 1];
      ResolveBlank(cs[..|cs| - 1]);
    }
  }

  lemma SlashedStep(c: string, cs: seq<string>)
    requires cs != []
    ensures c + Slashed(cs) == c + "/" + (cs[0] + Slashed(cs[1..]))
  {
    assert Slashed(cs) == "/" + (cs[0] + Slashed(cs[1..]));
  }

  lemma {:induction false} SplitComponents(c: string, cs: seq<string>)
    requires '/' !in c && AllProper(cs)
    ensures Split(c + Slashed(cs), "/") == [c] + cs
    decreases |cs|
  {
    if cs == [] {
      SplitWhole(c, "/");
      assert c + Slashed(cs) == c;
    } else {
      assert Proper(cs[0]);
      SlashedStep(c, cs);
      SplitAt(c, "/", cs[0] + Slashed(cs[1..]));
      SplitComponents(cs[0], cs[1..]);
      assert cs == [cs[0]] + cs[1..];
    }
  }

  /** Reading back the components of a rendered path. */
  lemma ComponentsOfRender(cs: seq<string>)
    requires AllProper(cs)
    ensures Components(Render(cs)) == cs
    ensures IsAbs(Render(cs))
  {
    if cs == [] {
      SplitAt("", "/", "");
      SplitWhole("", "/");
      assert "" + "/" + "" == "/";
      assert ["", ""][..1] == [""] && [""][..0] == [];
      assert Resolve([""]) == [] && Resolve(["", ""]) == [];
    } else {
      SplitComponents("", cs);
      assert "" + Slashed(cs) == Slashed(cs);
      ResolveBlank(cs);
      ResolveProperIsSame(cs);
    }
  }

  lemma CleanIsCanonical(s: string)
    ensures IsAbs(Clean(s)) && Components(Clean(s)) == Components(s) && Clean(Clean(s)) == Clean(s)
  {
    ComponentsProper(s);
    ComponentsOfRender(Components(s));
  }

  // ----- A property of characters that survives cleaning -----

  ghost predicate Avoids(s: string, c: char) { c !in s }

  lemma {:induction false} ResolveAvoids(parts: seq<string>, c: char, i: nat)
    requires (forall j :: 0 <= j < |parts| ==> Avoids(parts[j], c)) && i < |Resolve(parts)|
    ensures Avoids(Resolve(parts)[i], c)
  {
    var before := Resolve(parts[..|parts| - 1]);
    if i < |before| {
      ResolveAvoids(parts[..|parts| - 1], c, i);
    }
  }

  lemma {:induction false} SlashedAvoids(cs: seq<string>, c: char)
    requires c != '/' && forall j :: 0 <= j < |cs| ==> Avoids(cs[j], c)
    ensures Avoids(Slashed(cs), c)
  {
    if cs != [] {
      SlashedAvoids(cs[1..], c);
      assert Avoids(cs[0], c);
    }
  }

  lemma CleanAvoids(s: string, c: char)
    requires c != '/' && Avoids(s, c)
    ensures Avoids(Clean(s), c)
  {
    forall i | 0 <= i < |Split(s, "/")| ensures Avoids(Split(s, "/")[i], c) {
      forall j | 0 <= j < |Split(s, "/")[i]| ensures Split(s, "/")[i][j] != c {
        var m := SplitElement(Finder("/"), 1, s, i, j);
      }
    }
    forall i | 0 <= i < |Components(s)| ensures Avoids(Components(s)[i], c) {
      ResolveAvoids(Split(s, "/"), c, i);
    }
    SlashedAvoids(Components(s), c);
  }

  /** Normalizing is idempotent, whatever the home directory is the second time. */
  lemma NormalizeIdempotent(value: string, home: string, home': string)
    requires NormalizePath(value, home).Some?
    ensures var r := NormalizePath(value, home).value;
            NormalizePath(r, home') == Some(r) && IsAbs(r) && '\0' !in r && Clean(r) == r
  {
    var e := Expanded(value, home);
    CleanIsCanonical(e);
    CleanAvoids(e, '\0');
    assert Avoids(Clean(e), '\0');
  }

  // ----- Containment is the component prefix order -----

  lemma UpsFirst(n: nat)
    ensures |Ups(n)| == n && (n > 0 ==> Ups(n)[0] == "..")
  {
  }

  /** What the two string tests on the relative path look at is its first component. */
  lemma RelTests(ps: seq<string>)
    requires ps != [] && (ps[0] == ".." || '/' !in ps[0])
    ensures (JoinParts(ps) == ".." || "../" <= JoinParts(ps)) <==> ps[0] == ".."
  {
    var rel, c := JoinParts(ps), ps[0];
    DotDotSlash(rel);
    DotDotSlash(c);
    if |ps| > 1 {
      var tail := "/" + JoinParts(ps[1..]);
      assert rel == c + tail;
      assert rel[|c|] == tail[0] == '/';
      assert forall i :: 0 <= i < |c| ==> rel[i] == c[i];
    }
  }

  lemma DotDotSlash(s: string)
    ensures "../" <= s <==> |s| >= 3 && s[0] == '.' && s[1] == '.' && s[2] == '/'
    ensures s == ".." <==> |s| == 2 && s[0] == '.' && s[1] == '.'
  {
    if |s| >= 3 && s[0] == '.' && s[1] == '.' && s[2] == '/' {
      assert s[..3] == "../";
    }
  }

  lemma WithinIsPrefix(path: string, root: string)
    ensures Within(path, root) <==> Components(root) <= Components(path)
  {
    var r, p := Components(root), Components(path);
    ComponentsProper(root);
    ComponentsProper(path);
    var k := CommonLength(r, p);
    var parts := Ups(|r| - k) + p[k..];
    UpsFirst(|r| - k);
    if k < |r| {
      assert parts[0] == "..";
      RelTests(parts);
    } else {
      assert r == r[..k] == p[..k];
      assert parts == p[k..];
      if parts != [] {
        assert Proper(p[k]);
        RelTests(parts);
      }
    }
  }

  // ----- Cleaning never lengthens -----

  function ByteWidth(c: char): nat {
    if c < '\U{80}' then 1 else if c < '\U{800}' then 2 else if c < '\U{10000}' then 3 else 4
  }

  /** The length of the text in UTF-8. */
  function ByteLen(s: string): nat {
    if s == "" then 0 else ByteWidth(s[0]) + ByteLen(s[1..])
  }

  lemma {:induction false} ByteLenConcat(s: string, t: string)
    ensures ByteLen(s + t) == ByteLen(s) + ByteLen(t)
  {
    if s == "" {
      assert s + t == t;
    } else {
      assert (s + t)[1..] == s[1..] + t;
      ByteLenConcat(s[1..], t);
    }
  }

  /** Each part with the slash before it. */
  function Size(parts: seq<string>): nat {
    if parts == [] then 0 else Size(parts[..|parts| - 1]) + ByteLen(parts[|parts| - 1]) + 1
  }

  lemma {:induction false} SizeFirst(parts: seq<string>)
    requires parts != []
    ensures Size(parts) == ByteLen(parts[0]) + 1 + Size(parts[1..])
  {
    if |parts| == 1 {
      assert parts[..0] == [] && parts[1..] == [];
    } else {
      SizeFirst(parts[..|parts| - 1]);
      assert parts[..|parts| - 1][1..] == parts[1..][..|parts| - 2];
    }
  }

  lemma {:induction false} SplitSize(find: string -> nat, s: string)
    requires Cuts(find, "/")
    ensures Size(SplitWith(find, 1, s)) == ByteLen(s) + 1
    decreases |s|
  {
    var i := find(s);
    if i + 1 > |s| {
      SizePrepend(s, []);
      assert [s] + [] == [s] && Size([]) == 0;
    } else {
      SplitSize(find, s[i + 1..]);
      SizePrepend(s[..i], SplitWith(find, 1, s[i + 1..]));
      SlashedLength(s[..i], s[i + 1..]);
    }
  }

  lemma SizePrepend(part: string, parts: seq<string>)
    ensures Size([part] + parts) == ByteLen(part) + 1 + Size(parts)
  {
    SizeFirst([part] + parts);
    assert ([part] + parts)[1..] == parts;
  }

  lemma SlashedLength(a: string, b: string)
    ensures ByteLen(a + "/" + b) == ByteLen(a) + 1 + ByteLen(b)
  {
    ByteLenConcat(a + "/", b);
    ByteLenConcat(a, "/");
    assert "/"[1..] == "" && ByteLen("/") == 1;
  }

  lemma {:induction false} ResolveSize(parts: seq<string>)
    ensures Size(Resolve(parts)) <= Size(parts)
  {
    if parts != [] {
      ResolveSize(parts[..|parts| - 1]);
      var before, part := Resolve(parts[..|parts| - 1]), parts[|parts| - 1];
      if Push(before, part) == before + [part] {
        assert (before + [part])[..|before|] == before;
      }
    }
  }

  lemma {:induction false} SlashedSize(cs: seq<string>)
    ensures ByteLen(Slashed(cs)) == Size(cs)
  {
    if cs != [] {
      SizeFirst(cs);
      SlashedSize(cs[1..]);
      ByteLenConcat("/" + cs[0], Slashed(cs[1..]));
      ByteLenConcat("/", cs[0]);
      assert "/"[1..] == "" && ByteLen("/") == 1;
    }
  }

  lemma CleanNotLonger(s: string)
    requires IsAbs(s)
    ensures ByteLen(Clean(s)) <= ByteLen(s)
  {
    var rest := s[1..];
    assert s == "" + "/" + rest;
    SplitAt("", "/", rest);
    ResolveBlank(Split(rest, "/"));
    ResolveSize(Split(rest, "/"));
    FinderCuts("/");
    SplitSize(Finder("/"), rest);
    SlashedSize(Components(s));
    assert "/"[1..] == "" && ByteLen("/") == 1;
  }
}
