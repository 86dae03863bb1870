/** Inspecting what is on disk against a generated topology: the walk, what it has seen when it
    accepts, and that it accepts every tree that is exactly as prescribed. */
module TopologyOracle {
  import opened Basics

  /** What a name denotes. `sound` stands for the checks on a file's link count, body, allocation and
      stability while it is read, and on a directory's allocation and stability while it is listed. */
  datatype Node = Directory(inode: nat, sound: bool, names: seq<string>) | Regular(inode: nat, sound: bool) | Other

  /** What a topology prescribes and how the disk looks, over any kind of path. Nothing is assumed
      about the disk as a whole: it may even be endless. */
  datatype Rules<!P> = Rules(budget: nat, files: nat, allowed: P -> bool, place: nat -> P,
                             child: (P, string) -> P, ordinal: string -> Option<nat>, disk: P -> Node)

  /** The two observation tables. A row is refused when its key or its inode is already there. */
  datatype Tables<P> = Tables(dirs: map<P, nat>, files: map<nat, nat>)

  // ----- The walk -----

  function Spare<P>(r: Rules<P>, o: Tables<P>): nat {
    if r.budget > |o.dirs| then r.budget - |o.dirs| else 0
  }

  predicate Enters<P(==)>(r: Rules<P>, o: Tables<P>, dir: P) {
    && |o.dirs| < r.budget && r.allowed(dir) && r.disk(dir).Directory? && r.disk(dir).sound
    && dir !in o.dirs && r.disk(dir).inode !in o.dirs.Values
  }

  function Entered<P(==)>(r: Rules<P>, o: Tables<P>, dir: P): (o': Tables<P>)
    requires Enters(r, o, dir)
    ensures |o'.dirs| == |o.dirs| + 1
  {
    o.(dirs := o.dirs[dir := r.disk(dir).inode])
  }

  predicate Admits<P(==)>(r: Rules<P>, o: Tables<P>, p: P, name: string) {
    var node, n := r.disk(p), r.ordinal(name);
    && node.Regular? && node.sound && n.Some? && n.value < r.files && r.place(n.value) == p
    && n.value !in o.files && node.inode !in o.files.Values
  }

  /** The observations after walking a directory, or none when the walk refuses. The directory
      budget bounds it on any disk. */
  function WalkFrom<P(==)>(r: Rules<P>, o: Tables<P>, dir: P): (res: Option<Tables<P>>)
    ensures res.Some? ==> |res.value.dirs| > |o.dirs|
    decreases Spare(r, o), 0, 0
  {
    if !Enters(r, o, dir) then None else EntriesFrom(r, Entered(r, o, dir), dir, r.disk(dir).names)
  }

  /** One name of a listing: a directory is walked, anything else must be a prescribed file. */
  function EntryFrom<P(==)>(r: Rules<P>, o: Tables<P>, dir: P, name: string): (res: Option<Tables<P>>)
    ensures res.Some? ==> |res.value.dirs| >= |o.dirs|
    decreases Spare(r, o), 0, 1
  {
    var p := r.child(dir, name);
    if r.disk(p).Directory? then WalkFrom(r, o, p)
    else if !Admits(r, o, p, name) then None
    else Some(o.(files := o.files[r.ordinal(name).value := r.disk(p).inode]))
  }

  function EntriesFrom<P(==)>(r: Rules<P>, o: Tables<P>, dir: P, names: seq<string>): (res: Option<Tables<P>>)
    ensures res.Some? ==> |res.value.dirs| >= |o.dirs|
    decreases Spare(r, o), |names|, 2
  {
    if names == [] then Some(o) else
      var next := EntryFrom(r, o, dir, names[0]);
      if next.None? then None else EntriesFrom(r, next.value, dir, names[1..])
  }

  /** The inspection as the program runs it: a counter, two tables, and recursion through both. */
  class Inspection<P(==)> {
    const r: Rules<P>
    var dirs: map<P, nat>
    var files: map<nat, nat>

    constructor (r: Rules<P>)
      ensures this.r == r && Observations() == Tables(map[], map[])
    {
      this.r, dirs, files := r, map[], map[];
    }

    function Observations(): Tables<P>
      reads this
    {
      Tables(dirs, files)
    }

    method Walk(dir: P) returns (ok: bool)
      modifies this
      ensures ok <==> WalkFrom(r, old(Observations()), dir).Some?
      ensures ok ==> Observations() == WalkFrom(r, old(Observations()), dir).value
      decreases Spare(r, Observations()), 0
    {
      if !Enters(r, Observations(), dir) {
        return false;
      }
      ghost var entered := Entered(r, Observations(), dir);
      dirs := dirs[dir := r.disk(dir).inode];
      var names := r.disk(dir).names;
      for i := 0 to |names|
        invariant EntriesFrom(r, entered, dir, names) == EntriesFrom(r, Observations(), dir, names[i..])
        invariant |dirs| > |old(dirs)|
      {
        assert names[i..][0] == names[i] && names[i..][1..] == names[i + 1..];
        ok := Entry(dir, names[i]);
        if !ok {
          return;
        }
      }
      ok := true;
    }

    method Entry(dir: P, name: string) returns (ok: bool)
      modifies this
      ensures ok <==> EntryFrom(r, old(Observations()), dir, name).Some?
      ensures ok ==> Observations() == EntryFrom(r, old(Observations()), dir, name).value
      decreases Spare(r, Observations()), 1
    {
      var p := r.child(dir, name);
      if r.disk(p).Directory? {
        ok := Walk(p);
        return;
      }
      ok := Admits(r, Observations(), p, name);
      if ok {
        files := files[r.ordinal(name).value := r.disk(p).inode];
      }
    }

    /** The walk from the root and the final counts. */
    method Inspect(root: P) returns (ok: bool)
      requires Observations() == Tables(map[], map[])
      modifies this
      ensures ok == Accepts(r, root)
    {
      ok := Walk(root);
      if ok {
        ok := |files| == r.files && |dirs| == r.budget;
      }
    }
  }

  predicate Accepts<P(==)>(r: Rules<P>, root: P) {
    var o := WalkFrom(r, Tables(map[], map[]), root);
    o.Some? && |o.value.files| == r.files && |o.value.dirs| == r.budget
  }

  // ----- What the walk has seen -----

  ghost predicate Listable<P>(r: Rules<P>, d: P) {
    r.disk(d).Directory? && r.disk(d).sound
  }

  /** Only allowed directories and well-placed files, each object once. */
  ghost predicate Fitting<P(!new)>(r: Rules<P>, o: Tables<P>) {
    && (forall d :: d in o.dirs ==> r.allowed(d) && Listable(r, d) && r.disk(d).inode == o.dirs[d])
    && (forall n :: n in o.files ==> n < r.files && r.disk(r.place(n)) == Regular(o.files[n], true))
    && (forall d, e :: d in o.dirs && e in o.dirs && d != e ==> o.dirs[d] != o.dirs[e])
    && (forall m, n :: m in o.files && n in o.files && m != n ==> o.files[m] != o.files[n])
  }

  /** A path has been observed as a directory, or as the file that belongs there. */
  ghost predicate Observed<P(!new)>(r: Rules<P>, o: Tables<P>, p: P) {
    p in o.dirs || exists n :: n in o.files && r.place(n) == p
  }

  ghost predicate AllObserved<P(!new)>(r: Rules<P>, o: Tables<P>, d: P, names: seq<string>) {
    forall i :: 0 <= i < |names| ==> Observed(r, o, r.child(d, names[i]))
  }

  ghost predicate NoTwice(names: seq<string>) {
    forall i, j :: 0 <= i < j < |names| ==> names[i] != names[j]
  }

  /** Everything listed in the directory has been observed, and nothing is listed twice. */
  ghost predicate Explored<P(!new)>(r: Rules<P>, o: Tables<P>, d: P) {
    r.disk(d).Directory? && AllObserved(r, o, d, r.disk(d).names) && NoTwice(r.disk(d).names)
  }

  ghost predicate Lists<P>(r: Rules<P>, d: P, p: P) {
    r.disk(d).Directory? && exists i :: 0 <= i < |r.disk(d).names| && r.child(d, r.disk(d).names[i]) == p
  }

  /** Some observed directory lists the path. */
  ghost predicate Listed<P(!new)>(r: Rules<P>, o: Tables<P>, p: P) {
    exists d :: d in o.dirs && Lists(r, d, p)
  }

  ghost predicate Grows<P>(o: Tables<P>, o': Tables<P>) {
    && (forall d :: d in o.dirs ==> d in o'.dirs && o'.dirs[d] == o.dirs[d])
    && (forall n :: n in o.files ==> n in o'.files && o'.files[n] == o.files[n])
  }

  /** From `o` to `o'`: what is new is explored, unless it is still open, and listed, unless it is
      where the walk began. */
  ghost predicate Steps<P(!new)>(r: Rules<P>, o: Tables<P>, o': Tables<P>, open: set<P>, begun: set<P>) {
    && Grows(o, o') && Fitting(r, o')
    && (forall d :: d in o'.dirs && d !in o.dirs && d !in open ==> Explored(r, o', d))
    && (forall d :: d in o'.dirs && d !in o.dirs && d !in begun ==> Listed(r, o', d))
    && (forall n :: n in o'.files && n !in o.files ==> Listed(r, o', r.place(n)))
  }

  lemma ObservedGrows<P(!new)>(r: Rules<P>, o: Tables<P>, o': Tables<P>, p: P)
    requires Grows(o, o') && Observed(r, o, p)
    ensures Observed(r, o', p)
  {
  }

  lemma ExploredGrows<P(!new)>(r: Rules<P>, o: Tables<P>, o': Tables<P>, d: P)
    requires Grows(o, o') && Explored(r, o, d)
    ensures Explored(r, o', d)
  {
    forall i | 0 <= i < |r.disk(d).names| ensures Observed(r, o', r.child(d, r.disk(d).names[i])) {
      ObservedGrows(r, o, o', r.child(d, r.disk(d).names[i]));
    }
  }

  lemma ListedGrows<P(!new)>(r: Rules<P>, o: Tables<P>, o': Tables<P>, p: P)
    requires Grows(o, o') && Listed(r, o, p)
    ensures Listed(r, o', p)
  {
    var d :| d in o.dirs && Lists(r, d, p);
    assert d in o'.dirs;
  }

  lemma StepsCompose<P(!new)>(r: Rules<P>, a: Tables<P>, b: Tables<P>, c: Tables<P>, open: set<P>, begun: set<P>)
    requires Steps(r, a, b, open, begun) && Steps(r, b, c, {}, {})
    ensures Steps(r, a, c, open, begun)
  {
    forall d | d in c.dirs && d !in a.dirs && d !in open ensures Explored(r, c, d) {
      if d in b.dirs {
        ExploredGrows(r, b, c, d);
      }
    }
    forall d | d in c.dirs && d !in a.dirs && d !in begun ensures Listed(r, c, d) {
      if d in b.dirs {
        ListedGrows(r, b, c, d);
      }
    }
    forall n | n in c.files && n !in a.files ensures Listed(r, c, r.place(n)) {
      if n in b.files {
        ListedGrows(r, b, c, r.place(n));
      }
    }
  }

  lemma NewValue<K>(m: map<K, nat>, v: nat)
    requires v !in m.Values
    ensures forall k :: k in m ==> m[k] != v
  {
  }

  lemma EnterFits<P(!new)>(r: Rules<P>, o: Tables<P>, dir: P)
    requires Fitting(r, o) && Enters(r, o, dir)
    ensures Steps(r, o, Entered(r, o, dir), {dir}, {dir})
  {
    NewValue(o.dirs, r.disk(dir).inode);
  }

  lemma AdmitFits<P(!new)>(r: Rules<P>, o: Tables<P>, dir: P, name: string)
    requires Fitting(r, o) && dir in o.dirs && Admits(r, o, r.child(dir, name), name)
             && Lists(r, dir, r.child(dir, name))
    ensures Steps(r, o, o.(files := o.files[r.ordinal(name).value := r.disk(r.child(dir, name)).inode]), {}, {})
  {
    NewValue(o.files, r.disk(r.child(dir, name)).inode);
  }

  /** A path that has been observed is refused the second time. */
  lemma ObservedIsRefused<P(!new)>(r: Rules<P>, o: Tables<P>, dir: P, name: string)
    requires Fitting(r, o) && Observed(r, o, r.child(dir, name))
    ensures EntryFrom(r, o, dir, name).None?
  {
    var p := r.child(dir, name);
    if p !in o.dirs {
      var n :| n in o.files && r.place(n) == p;
      assert o.files[n] == r.disk(p).inode;
      assert o.files[n] in o.files.Values;
    }
  }

  lemma {:induction false} EntrySound<P(!new)>(r: Rules<P>, o: Tables<P>, dir: P, name: string)
    requires Fitting(r, o) && dir in o.dirs && Lists(r, dir, r.child(dir, name)) && EntryFrom(r, o, dir, name).Some?
    ensures var o' := EntryFrom(r, o, dir, name).value;
            Steps(r, o, o', {}, {}) && Observed(r, o', r.child(dir, name))
    decreases Spare(r, o), 0, 1
  {
    var p := r.child(dir, name);
    var o' := EntryFrom(r, o, dir, name).value;
    if r.disk(p).Directory? {
      WalkSound(r, o, p);
      assert Listed(r, o', p);
    } else {
      AdmitFits(r, o, dir, name);
      assert r.ordinal(name).value in o'.files;
    }
  }

  /** None of these names has been observed yet. */
  ghost predicate NoneObserved<P(!new)>(r: Rules<P>, o: Tables<P>, d: P, names: seq<string>) {
    forall i :: 0 <= i < |names| ==> !Observed(r, o, r.child(d, names[i]))
  }

  /** Adding a first name that is observed between `o` and `o'` to names observed after `o'`. */
  lemma FirstName<P(!new)>(r: Rules<P>, o: Tables<P>, o': Tables<P>, o'': Tables<P>, d: P, names: seq<string>)
    requires names != [] && Grows(o, o') && Grows(o', o'')
    requires !Observed(r, o, r.child(d, names[0])) && Observed(r, o', r.child(d, names[0]))
    requires NoneObserved(r, o', d, names[1..]) && AllObserved(r, o'', d, names[1..]) && NoTwice(names[1..])
    ensures NoneObserved(r, o, d, names) && AllObserved(r, o'', d, names) && NoTwice(names)
  {
    ObservedGrows(r, o', o'', r.child(d, names[0]));
    forall i | 0 < i < |names|
      ensures !Observed(r, o, r.child(d, names[i])) && Observed(r, o'', r.child(d, names[i])) && names[0] != names[i]
    {
      assert names[i] == names[1..][i - 1];
      if Observed(r, o, r.child(d, names[i])) {
        ObservedGrows(r, o, o', r.child(d, names[i]));
      }
    }
    forall i, j | 0 < i < j < |names| ensures names[i] != names[j] {
      assert names[i] == names[1..][i - 1] && names[j] == names[1..][j - 1];
    }
  }

  lemma {:induction false} EntriesSound<P(!new)>(r: Rules<P>, o: Tables<P>, dir: P, names: seq<string>, k: nat)
    requires Fitting(r, o) && dir in o.dirs && r.disk(dir).Directory? && k <= |r.disk(dir).names|
    requires names == r.disk(dir).names[k..] && EntriesFrom(r, o, dir, names).Some?
    ensures var o' := EntriesFrom(r, o, dir, names).value;
            Steps(r, o, o', {}, {}) && AllObserved(r, o', dir, names)
    ensures NoneObserved(r, o, dir, names) && NoTwice(names)
    decreases Spare(r, o), |names|, 2
  {
    if names != [] {
      var o' := EntryFrom(r, o, dir, names[0]).value;
      var o'' := EntriesFrom(r, o, dir, names).value;
      assert names[0] == r.disk(dir).names[k];
      if Observed(r, o, r.child(dir, names[0])) {
        ObservedIsRefused(r, o, dir, names[0]);
      }
      EntrySound(r, o, dir, names[0]);
      EntriesSound(r, o', dir, names[1..], k + 1);
      StepsCompose(r, o, o', o'', {}, {});
      FirstName(r, o, o', o'', dir, names);
    }
  }

  lemma {:induction false} WalkSound<P(!new)>(r: Rules<P>, o: Tables<P>, dir: P)
    requires Fitting(r, o) && WalkFrom(r, o, dir).Some?
    ensures var o' := WalkFrom(r, o, dir).value;
            Steps(r, o, o', {}, {dir}) && dir in o'.dirs
    decreases Spare(r, o), 0, 0
  {
    var e, o' := Entered(r, o, dir), WalkFrom(r, o, dir).value;
    EnterFits(r, o, dir);
    EntriesSound(r, e, dir, r.disk(dir).names, 0);
    StepsCompose(r, o, e, o', {dir}, {dir});
    assert Explored(r, o', dir);
  }

  // ----- A prescribed tree -----

  /** What a listed path may be. */
  ghost predicate Belongs<P>(r: Rules<P>, p: P) {
    r.allowed(p) || exists n: nat :: n < r.files && r.place(n) == p
  }

  ghost predicate OnlyBelonging<P>(r: Rules<P>, d: P) {
    && Listable(r, d) && NoTwice(r.disk(d).names)
    && forall i :: 0 <= i < |r.disk(d).names| ==> Belongs(r, r.child(d, r.disk(d).names[i]))
  }

  /** An allowed directory lists the path. */
  ghost predicate Reached<P(!new)>(r: Rules<P>, p: P) {
    exists d :: r.allowed(d) && Lists(r, d, p)
  }

  predicate SameObject(a: Node, b: Node) {
    !a.Other? && !b.Other? && a.inode == b.inode
  }

  /** The file is where it belongs, sound and reached. */
  ghost predicate Stands<P(!new)>(r: Rules<P>, n: nat) {
    r.disk(r.place(n)).Regular? && r.disk(r.place(n)).sound && Reached(r, r.place(n))
  }

  /** The tree at the root is the prescribed one: every allowed directory is there, sound, holds only
      what belongs, and lists nothing twice; every prescribed file is there and sound; each of them is
      reached; and no two directories and no two files are the same object. */
  ghost predicate AsPrescribed<P(!new)>(r: Rules<P>, root: P) {
    r.allowed(root) && DirsStand(r, root) && FilesStand(r) && AllApart(r)
  }

  ghost predicate DirsStand<P(!new)>(r: Rules<P>, root: P) {
    && (forall d :: r.allowed(d) ==> OnlyBelonging(r, d))
    && (forall d :: r.allowed(d) && d != root ==> Reached(r, d))
  }

  ghost predicate FilesStand<P(!new)>(r: Rules<P>) {
    forall n: nat :: n < r.files ==> Stands(r, n)
  }

  ghost predicate AllApart<P(!new)>(r: Rules<P>) {
    && (forall d, e :: r.allowed(d) && r.allowed(e) && d != e ==> !SameObject(r.disk(d), r.disk(e)))
    && (forall m: nat, n: nat :: m < n < r.files ==> !SameObject(r.disk(r.place(m)), r.disk(r.place(n))))
  }

  /** How paths nest: which lie inside which, and how deep each is. */
  datatype Nesting<!P> = Nesting(inside: (P, P) -> bool, depth: P -> nat)

  ghost predicate Nests<P(!new)>(r: Rules<P>, g: Nesting<P>) {
    && (forall d :: g.inside(d, d))
    && (forall d, a: string :: !g.inside(d, r.child(d, a)) && g.depth(r.child(d, a)) > g.depth(d))
    && (forall p, d, a: string :: g.inside(p, r.child(d, a)) ==> g.inside(p, d))
    && (forall p, d, a: string, b: string :: g.inside(p, r.child(d, a)) && g.inside(p, r.child(d, b)) ==> a == b)
  }

  ghost predicate AllowedAre<P(!new)>(r: Rules<P>, all: set<P>) {
    forall d :: r.allowed(d) <==> d in all
  }

  /** The rules prescribe as many directories as the budget and each file at its own place, where
      its name spells its ordinal. */
  ghost predicate Coherent<P(!new)>(r: Rules<P>, g: Nesting<P>, all: set<P>) {
    && Nests(r, g)
    && |all| == r.budget && AllowedAre(r, all)
    && (forall m: nat, n: nat :: m < n < r.files ==> r.place(m) != r.place(n))
    && (forall d, a: string, n: nat :: n < r.files && r.child(d, a) == r.place(n) ==> r.ordinal(a) == Some(n))
  }

  ghost function Below(n: nat): (s: set<nat>)
    ensures |s| == n && forall i: nat :: i in s <==> i < n
  {
    if n == 0 then {} else Below(n - 1) + {n - 1}
  }

  lemma FullSubset<T>(part: set<T>, whole: set<T>)
    requires part <= whole && |part| == |whole|
    ensures part == whole
  {
    assert |whole - part| == 0;
  }

  // ----- An accepted tree is the prescribed one -----

  /** The pigeonhole: full counts leave nothing out. */
  lemma CountsAreExact<P(!new)>(r: Rules<P>, all: set<P>, o: Tables<P>)
    requires |all| == r.budget && AllowedAre(r, all)
    requires Fitting(r, o) && |o.dirs| == r.budget && |o.files| == r.files
    ensures o.dirs.Keys == all && o.files.Keys == Below(r.files)
  {
    FullSubset(o.dirs.Keys, all);
    FullSubset(o.files.Keys, Below(r.files));
  }

  lemma ExploredBelongs<P(!new)>(r: Rules<P>, o: Tables<P>, d: P)
    requires Fitting(r, o) && Explored(r, o, d) && d in o.dirs
    ensures OnlyBelonging(r, d)
  {
    forall i | 0 <= i < |r.disk(d).names| ensures Belongs(r, r.child(d, r.disk(d).names[i])) {
      var p := r.child(d, r.disk(d).names[i]);
      assert Observed(r, o, p);
      if p !in o.dirs {
        var n :| n in o.files && r.place(n) == p;
      }
    }
  }

  lemma ListedReached<P(!new)>(r: Rules<P>, o: Tables<P>, p: P)
    requires Fitting(r, o) && Listed(r, o, p)
    ensures Reached(r, p)
  {
    var d :| d in o.dirs && Lists(r, d, p);
    assert r.allowed(d);
  }

  ghost predicate AllExplored<P(!new)>(r: Rules<P>, o: Tables<P>) {
    forall d :: d in o.dirs ==> Explored(r, o, d)
  }

  ghost predicate AllListed<P(!new)>(r: Rules<P>, o: Tables<P>, root: P) {
    && (forall d :: d in o.dirs && d != root ==> Listed(r, o, d))
    && (forall n :: n in o.files ==> Listed(r, o, r.place(n)))
  }

  /** What a successful walk from the root has observed. */
  lemma RootWalk<P(!new)>(r: Rules<P>, root: P)
    requires WalkFrom(r, Tables(map[], map[]), root).Some?
    ensures var o := WalkFrom(r, Tables(map[], map[]), root).value;
            Fitting(r, o) && AllExplored(r, o) && AllListed(r, o, root) && root in o.dirs
  {
    WalkSound(r, Tables(map[], map[]), root);
  }

  lemma SeenDirectories<P(!new)>(r: Rules<P>, all: set<P>, root: P, o: Tables<P>)
    requires Fitting(r, o) && AllExplored(r, o) && AllListed(r, o, root) && o.dirs.Keys == all && AllowedAre(r, all)
    ensures DirsStand(r, root)
  {
    forall d | r.allowed(d) ensures OnlyBelonging(r, d) && (d != root ==> Reached(r, d)) {
      assert d in o.dirs.Keys;
      ExploredBelongs(r, o, d);
      if d != root {
        ListedReached(r, o, d);
      }
    }
  }

  lemma SeenFiles<P(!new)>(r: Rules<P>, root: P, o: Tables<P>)
    requires Fitting(r, o) && AllListed(r, o, root) && o.files.Keys == Below(r.files)
    ensures FilesStand(r)
  {
    forall n: nat | n < r.files ensures Stands(r, n) {
      assert n in o.files.Keys;
      ListedReached(r, o, r.place(n));
    }
  }

  lemma SeenApart<P(!new)>(r: Rules<P>, all: set<P>, o: Tables<P>)
    requires Fitting(r, o) && o.dirs.Keys == all && o.files.Keys == Below(r.files) && AllowedAre(r, all)
    ensures AllApart(r)
  {
    forall d, e | r.allowed(d) && r.allowed(e) && d != e ensures !SameObject(r.disk(d), r.disk(e)) {
      assert d in o.dirs.Keys && e in o.dirs.Keys;
    }
    forall m: nat, n: nat | m < n < r.files ensures !SameObject(r.disk(r.place(m)), r.disk(r.place(n))) {
      assert m in o.files.Keys && n in o.files.Keys;
    }
  }

  lemma SeenAll<P(!new)>(r: Rules<P>, all: set<P>, root: P, o: Tables<P>)
    requires Fitting(r, o) && AllExplored(r, o) && AllListed(r, o, root) && root in o.dirs
    requires |all| == r.budget && AllowedAre(r, all) && |o.dirs| == r.budget && |o.files| == r.files
    ensures AsPrescribed(r, root)
  {
    CountsAreExact(r, all, o);
    SeenDirectories(r, all, root, o);
    SeenFiles(r, root, o);
    SeenApart(r, all, o);
  }

  lemma AcceptedIsPrescribed<P(!new)>(r: Rules<P>, g: Nesting<P>, all: set<P>, root: P)
    requires Coherent(r, g, all) && Accepts(r, root)
    ensures AsPrescribed(r, root)
  {
    RootWalk(r, root);
    SeenAll(r, all, root, WalkFrom(r, Tables(map[], map[]), root).value);
  }

  // ----- The prescribed tree is accepted -----

  /** Nothing inside the path has been observed. */
  ghost predicate Untouched<P(!new)>(r: Rules<P>, g: Nesting<P>, o: Tables<P>, p: P) {
    && (forall d :: d in o.dirs ==> !g.inside(d, p))
    && (forall n :: n in o.files ==> !g.inside(r.place(n), p))
  }

  /** Everything new lies inside the path. */
  ghost predicate Confined<P(!new)>(r: Rules<P>, g: Nesting<P>, o: Tables<P>, o': Tables<P>, p: P) {
    && (forall d :: d in o'.dirs && d !in o.dirs ==> g.inside(d, p))
    && (forall n :: n in o'.files && n !in o.files ==> g.inside(r.place(n), p))
  }

  ghost predicate AllUntouched<P(!new)>(r: Rules<P>, g: Nesting<P>, o: Tables<P>, d: P, names: seq<string>) {
    forall i :: 0 <= i < |names| ==> Untouched(r, g, o, r.child(d, names[i]))
  }

  lemma EntersUntouched<P(!new)>(r: Rules<P>, g: Nesting<P>, all: set<P>, root: P, o: Tables<P>, dir: P)
    requires Coherent(r, g, all) && AsPrescribed(r, root) && Fitting(r, o) && r.allowed(dir) && Untouched(r, g, o, dir)
    ensures Enters(r, o, dir)
  {
    assert dir !in o.dirs;
    assert o.dirs.Keys <= all - {dir};
    Smaller(o.dirs.Keys, all - {dir});
    assert OnlyBelonging(r, dir);
  }

  lemma {:induction false} Smaller<T>(part: set<T>, whole: set<T>)
    requires part <= whole
    ensures |part| <= |whole|
  {
    assert part + (whole - part) == whole;
  }

  lemma NewInode<P(!new)>(r: Rules<P>, root: P, o: Tables<P>, n: nat)
    requires AsPrescribed(r, root) && Fitting(r, o) && n < r.files && n !in o.files && r.disk(r.place(n)).Regular?
    ensures r.disk(r.place(n)).inode !in o.files.Values
  {
    forall m | m in o.files ensures o.files[m] != r.disk(r.place(n)).inode {
      assert m < n || n < m;
    }
  }

  lemma AdmitsUntouched<P(!new)>(r: Rules<P>, g: Nesting<P>, all: set<P>, root: P, o: Tables<P>, dir: P,
                                 name: string, n: nat)
    requires Coherent(r, g, all) && AsPrescribed(r, root) && Fitting(r, o)
    requires n < r.files && r.place(n) == r.child(dir, name) && Untouched(r, g, o, r.child(dir, name))
    ensures Admits(r, o, r.child(dir, name), name) && r.ordinal(name) == Some(n)
  {
    var p := r.child(dir, name);
    assert g.inside(p, p);
    assert Stands(r, n);
    NewInode(r, root, o, n);
  }

  lemma {:induction false} EntrySucceeds<P(!new)>(r: Rules<P>, g: Nesting<P>, all: set<P>, root: P, o: Tables<P>,
                                                  dir: P, name: string)
    requires Coherent(r, g, all) && AsPrescribed(r, root) && Fitting(r, o)
    requires Belongs(r, r.child(dir, name)) && Untouched(r, g, o, r.child(dir, name))
    ensures EntryFrom(r, o, dir, name).Some?
    ensures Confined(r, g, o, EntryFrom(r, o, dir, name).value, r.child(dir, name))
    decreases Spare(r, o), 0, 1
  {
    var p := r.child(dir, name);
    if r.allowed(p) {
      assert OnlyBelonging(r, p);
      WalkSucceeds(r, g, all, root, o, p);
    } else {
      var n: nat :| n < r.files && r.place(n) == p;
      AdmitsUntouched(r, g, all, root, o, dir, name, n);
      assert g.inside(p, p);
    }
  }

  /** What was found under one name leaves the others untouched. */
  lemma RestUntouched<P(!new)>(r: Rules<P>, g: Nesting<P>, o: Tables<P>, o': Tables<P>, dir: P, names: seq<string>)
    requires names != [] && NoTwice(names) && Nests(r, g)
    requires AllUntouched(r, g, o, dir, names) && Confined(r, g, o, o', r.child(dir, names[0]))
    ensures AllUntouched(r, g, o', dir, names[1..])
  {
    forall i | 0 <= i < |names[1..]| ensures Untouched(r, g, o', r.child(dir, names[1..][i])) {
      assert names[1..][i] == names[i + 1] && names[0] != names[i + 1];
    }
  }

  lemma ConfinedAbove<P(!new)>(r: Rules<P>, g: Nesting<P>, o: Tables<P>, o': Tables<P>, o'': Tables<P>, dir: P,
                               a: string)
    requires Nests(r, g) && Confined(r, g, o, o', r.child(dir, a)) && Confined(r, g, o', o'', dir)
    ensures Confined(r, g, o, o'', dir)
  {
  }

  lemma NextName<P(!new)>(r: Rules<P>, dir: P, names: seq<string>, k: nat)
    requires OnlyBelonging(r, dir) && k < |r.disk(dir).names| && names == r.disk(dir).names[k..]
    ensures Belongs(r, r.child(dir, names[0])) && Lists(r, dir, r.child(dir, names[0])) && NoTwice(names)
  {
    assert names[0] == r.disk(dir).names[k];
  }

  /** The first of several untouched names, and what is left for the others. */
  lemma {:induction false} FirstSucceeds<P(!new)>(r: Rules<P>, g: Nesting<P>, all: set<P>, root: P, o: Tables<P>,
                                                  dir: P, names: seq<string>, k: nat)
    requires Coherent(r, g, all) && AsPrescribed(r, root) && Fitting(r, o)
    requires dir in o.dirs && OnlyBelonging(r, dir) && k < |r.disk(dir).names| && names == r.disk(dir).names[k..]
    requires AllUntouched(r, g, o, dir, names)
    ensures EntryFrom(r, o, dir, names[0]).Some?
    ensures var o' := EntryFrom(r, o, dir, names[0]).value;
            && Fitting(r, o') && dir in o'.dirs && Confined(r, g, o, o', r.child(dir, names[0]))
            && AllUntouched(r, g, o', dir, names[1..])
    decreases Spare(r, o), |names|, 1
  {
    NextName(r, dir, names, k);
    EntrySucceeds(r, g, all, root, o, dir, names[0]);
    EntrySound(r, o, dir, names[0]);
    RestUntouched(r, g, o, EntryFrom(r, o, dir, names[0]).value, dir, names);
  }

  lemma {:induction false} EntriesSucceed<P(!new)>(r: Rules<P>, g: Nesting<P>, all: set<P>, root: P, o: Tables<P>,
                                                   dir: P, names: seq<string>, k: nat)
    requires Coherent(r, g, all) && AsPrescribed(r, root) && Fitting(r, o)
    requires dir in o.dirs && OnlyBelonging(r, dir) && k <= |r.disk(dir).names| && names == r.disk(dir).names[k..]
    requires AllUntouched(r, g, o, dir, names)
    ensures EntriesFrom(r, o, dir, names).Some? && Confined(r, g, o, EntriesFrom(r, o, dir, names).value, dir)
    decreases Spare(r, o), |names|, 2
  {
    if names != [] {
      FirstSucceeds(r, g, all, root, o, dir, names, k);
      var o' := EntryFrom(r, o, dir, names[0]).value;
      EntriesSucceed(r, g, all, root, o', dir, names[1..], k + 1);
      ConfinedAbove(r, g, o, o', EntriesFrom(r, o, dir, names).value, dir, names[0]);
    }
  }

  /** Entering a directory touches nothing below it. */
  lemma AllFresh<P(!new)>(r: Rules<P>, g: Nesting<P>, o: Tables<P>, dir: P, names: seq<string>)
    requires Nests(r, g) && Enters(r, o, dir) && Untouched(r, g, o, dir)
    ensures AllUntouched(r, g, Entered(r, o, dir), dir, names)
  {
  }

  lemma {:induction false} WalkSucceeds<P(!new)>(r: Rules<P>, g: Nesting<P>, all: set<P>, root: P, o: Tables<P>, dir: P)
    requires Coherent(r, g, all) && AsPrescribed(r, root) && Fitting(r, o) && r.allowed(dir) && Untouched(r, g, o, dir)
    ensures WalkFrom(r, o, dir).Some? && Confined(r, g, o, WalkFrom(r, o, dir).value, dir)
    decreases Spare(r, o), 0, 0
  {
    EntersUntouched(r, g, all, root, o, dir);
    EnterFits(r, o, dir);
    var e, names := Entered(r, o, dir), r.disk(dir).names;
    AllFresh(r, g, o, dir, names);
    EntriesSucceed(r, g, all, root, e, dir, names, 0);
  }

  /** What is reached from an explored directory has been observed. */
  lemma ListedObserved<P(!new)>(r: Rules<P>, o: Tables<P>, d: P, p: P)
    requires Explored(r, o, d) && Lists(r, d, p)
    ensures Observed(r, o, p)
  {
  }

  /** Every allowed directory is seen, by depth. */
  lemma {:induction false} AllSeen<P(!new)>(r: Rules<P>, g: Nesting<P>, root: P, o: Tables<P>, d: P)
    requires Nests(r, g) && AsPrescribed(r, root) && Fitting(r, o) && root in o.dirs && r.allowed(d)
    requires AllExplored(r, o)
    ensures d in o.dirs
    decreases g.depth(d)
  {
    if d != root {
      var e :| r.allowed(e) && Lists(r, e, d);
      AllSeen(r, g, root, o, e);
      ListedObserved(r, o, e, d);
      assert OnlyBelonging(r, d);
    }
  }

  lemma FileSeen<P(!new)>(r: Rules<P>, g: Nesting<P>, all: set<P>, root: P, o: Tables<P>, n: nat)
    requires Coherent(r, g, all) && AsPrescribed(r, root) && Fitting(r, o) && root in o.dirs && n < r.files
    requires AllExplored(r, o)
    ensures n in o.files
  {
    var p := r.place(n);
    assert Stands(r, n);
    var e :| r.allowed(e) && Lists(r, e, p);
    AllSeen(r, g, root, o, e);
    ListedObserved(r, o, e, p);
    var m :| m in o.files && r.place(m) == p;
    assert m == n;
  }

  lemma EverythingSeen<P(!new)>(r: Rules<P>, g: Nesting<P>, all: set<P>, root: P, o: Tables<P>)
    requires Coherent(r, g, all) && AsPrescribed(r, root) && Fitting(r, o) && root in o.dirs && AllExplored(r, o)
    ensures |o.dirs| == r.budget && |o.files| == r.files
  {
    forall d | d in all ensures d in o.dirs.Keys {
      AllSeen(r, g, root, o, d);
    }
    forall n: nat | n < r.files ensures n in o.files.Keys {
      FileSeen(r, g, all, root, o, n);
    }
    assert o.dirs.Keys == all && o.files.Keys == Below(r.files);
  }

  lemma PrescribedIsAccepted<P(!new)>(r: Rules<P>, g: Nesting<P>, all: set<P>, root: P)
    requires Coherent(r, g, all) && AsPrescribed(r, root)
    ensures Accepts(r, root)
  {
    WalkSucceeds(r, g, all, root, Tables(map[], map[]), root);
    RootWalk(r, root);
    EverythingSeen(r, g, all, root, WalkFrom(r, Tables(map[], map[]), root).value);
  }

  /** An inspection accepts exactly the prescribed tree. */
  lemma AcceptsExactly<P(!new)>(r: Rules<P>, g: Nesting<P>, all: set<P>, root: P)
    requires Coherent(r, g, all)
    ensures Accepts(r, root) <==> AsPrescribed(r, root)
  {
    if Accepts(r, root) {
      AcceptedIsPrescribed(r, g, all, root);
    }
    if AsPrescribed(r, root) {
      PrescribedIsAccepted(r, g, all, root);
    }
  }

  // ----- The prescribed tree by its directories and files -----

  ghost predicate HoldsOnly<P(!new)>(disk: P -> Node, child: (P, string) -> P, d: P, paths: set<P>) {
    && disk(d).Directory? && disk(d).sound && NoTwice(disk(d).names)
    && forall i :: 0 <= i < |disk(d).names| ==> child(d, disk(d).names[i]) in paths
  }

  ghost predicate HeldIn<P(!new)>(disk: P -> Node, child: (P, string) -> P, dirs: set<P>, p: P) {
    exists d, i :: d in dirs && disk(d).Directory? && 0 <= i < |disk(d).names| && child(d, disk(d).names[i]) == p
  }

  /** The disk shows exactly these directories and files, each its own object. */
  ghost predicate Shows<P(!new)>(disk: P -> Node, child: (P, string) -> P, root: P, dirs: set<P>, files: set<P>) {
    && root in dirs
    && (forall d :: d in dirs ==> HoldsOnly(disk, child, d, dirs + files))
    && (forall p :: p in dirs + files && p != root ==> HeldIn(disk, child, dirs, p))
    && (forall p :: p in files ==> disk(p).Regular? && disk(p).sound)
    && (forall d, e :: d in dirs && e in dirs && d != e ==> !SameObject(disk(d), disk(e)))
    && (forall p, q :: p in files && q in files && p != q ==> !SameObject(disk(p), disk(q)))
  }

  ghost predicate PlacesAre<P(!new)>(r: Rules<P>, files: set<P>) {
    && (forall n: nat :: n < r.files ==> r.place(n) in files)
    && (forall p :: p in files ==> exists n: nat :: n < r.files && r.place(n) == p)
  }

  lemma ReachedIsHeld<P(!new)>(r: Rules<P>, dirs: set<P>, p: P)
    requires AllowedAre(r, dirs)
    ensures Reached(r, p) <==> HeldIn(r.disk, r.child, dirs, p)
  {
    if Reached(r, p) {
      var d :| r.allowed(d) && Lists(r, d, p);
      var i :| 0 <= i < |r.disk(d).names| && r.child(d, r.disk(d).names[i]) == p;
      assert d in dirs;
    }
    if HeldIn(r.disk, r.child, dirs, p) {
      var d, i :| d in dirs && r.disk(d).Directory? && 0 <= i < |r.disk(d).names|
        && r.child(d, r.disk(d).names[i]) == p;
      assert r.allowed(d) && Lists(r, d, p);
    }
  }

  lemma BelongsIsListed<P(!new)>(r: Rules<P>, dirs: set<P>, files: set<P>, p: P)
    requires AllowedAre(r, dirs) && PlacesAre(r, files)
    ensures Belongs(r, p) <==> p in dirs + files
  {
  }

  lemma HoldsIsBelonging<P(!new)>(r: Rules<P>, dirs: set<P>, files: set<P>, d: P)
    requires AllowedAre(r, dirs) && PlacesAre(r, files)
    ensures OnlyBelonging(r, d) <==> HoldsOnly(r.disk, r.child, d, dirs + files)
  {
    forall p ensures Belongs(r, p) <==> p in dirs + files {
      BelongsIsListed(r, dirs, files, p);
    }
  }

  lemma ShownIsPrescribed<P(!new)>(r: Rules<P>, g: Nesting<P>, root: P, dirs: set<P>, files: set<P>)
    requires Coherent(r, g, dirs) && PlacesAre(r, files) && Shows(r.disk, r.child, root, dirs, files)
    ensures AsPrescribed(r, root)
  {
    assert root !in files;
    forall d | r.allowed(d) ensures OnlyBelonging(r, d) && (d != root ==> Reached(r, d)) {
      HoldsIsBelonging(r, dirs, files, d);
      ReachedIsHeld(r, dirs, d);
    }
    forall n: nat | n < r.files ensures Stands(r, n) {
      assert r.place(n) in files;
      ReachedIsHeld(r, dirs, r.place(n));
    }
  }

  lemma FilesApart<P(!new)>(r: Rules<P>, root: P, files: set<P>, p: P, q: P)
    requires PlacesAre(r, files) && AsPrescribed(r, root) && p in files && q in files && p != q
    ensures !SameObject(r.disk(p), r.disk(q))
  {
    var m: nat :| m < r.files && r.place(m) == p;
    var n: nat :| n < r.files && r.place(n) == q;
    assert m < n || n < m;
  }

  lemma PrescribedIsShown<P(!new)>(r: Rules<P>, g: Nesting<P>, root: P, dirs: set<P>, files: set<P>)
    requires Coherent(r, g, dirs) && PlacesAre(r, files) && AsPrescribed(r, root)
    ensures Shows(r.disk, r.child, root, dirs, files)
  {
    forall d | d in dirs ensures HoldsOnly(r.disk, r.child, d, dirs + files) {
      HoldsIsBelonging(r, dirs, files, d);
    }
    forall p | p in files ensures r.disk(p).Regular? && r.disk(p).sound && HeldIn(r.disk, r.child, dirs, p) {
      var n: nat :| n < r.files && r.place(n) == p;
      assert Stands(r, n);
      ReachedIsHeld(r, dirs, p);
    }
    forall d | d in dirs && d != root ensures HeldIn(r.disk, r.child, dirs, d) {
      ReachedIsHeld(r, dirs, d);
    }
    forall p, q | p in files && q in files && p != q ensures !SameObject(r.disk(p), r.disk(q)) {
      FilesApart(r, root, files, p, q);
    }
  }

  lemma ShowsExactly<P(!new)>(r: Rules<P>, g: Nesting<P>, root: P, dirs: set<P>, files: set<P>)
    requires Coherent(r, g, dirs) && PlacesAre(r, files)
    ensures AsPrescribed(r, root) <==> Shows(r.disk, r.child, root, dirs, files)
  {
    if AsPrescribed(r, root) {
      PrescribedIsShown(r, g, root, dirs, files);
    }
    if Shows(r.disk, r.child, root, dirs, files) {
      ShownIsPrescribed(r, g, root, dirs, files);
    }
  }
}
