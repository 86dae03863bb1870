/** Generating a topology on disk, and that inspecting what was generated accepts it. */
module Generation {
  import opened Topology
  import opened TopologyOracle
  import opened TopologyInspection

  function Dir(p: Path): Path
    requires p != []
  {
    p[..|p| - 1]
  }

  /** What lies at and below the root. Any answer of the environment may be a fault. */
  class Volume {
    const faults: nat -> bool
    var asked: nat
    var dirs: set<Path>
    var files: set<Path>

    /** Everything below the root is in a directory that is there, and no path is of both kinds. */
    ghost predicate Tree()
      reads this
    {
      && (forall p :: p in dirs + files && p != [] ==> Dir(p) in dirs)
      && dirs !! files && [] !in files
    }

    ghost predicate Calm(since: nat)
      reads this
    {
      forall i :: since <= i < asked ==> !faults(i)
    }

    constructor (faults: nat -> bool)
      ensures this.faults == faults && asked == 0 && dirs == {} && files == {} && Tree()
    {
      this.faults, asked, dirs, files := faults, 0, {}, {};
    }

    /** One answer of the environment. */
    method Permits() returns (ok: bool)
      modifies this`asked
      ensures asked == old(asked) + 1 && ok == !faults(old(asked))
    {
      ok := !faults(asked);
      asked := asked + 1;
    }

    method Mkdir(p: Path) returns (ok: bool)
      requires Tree()
      modifies this`asked, this`dirs
      ensures Tree() && asked == old(asked) + 1
      ensures ok <==> !faults(old(asked)) && p !in old(dirs) + files && (p == [] || Dir(p) in old(dirs))
      ensures dirs == if ok then old(dirs) + {p} else old(dirs)
    {
      ok := Permits();
      ok := ok && p !in dirs && p !in files && (p == [] || Dir(p) in dirs);
      if ok {
        dirs := dirs + {p};
      }
    }

    /** Exclusive creation. */
    method Create(p: Path) returns (ok: bool)
      requires Tree()
      modifies this`asked, this`files
      ensures Tree() && asked == old(asked) + 1
      ensures ok <==> !faults(old(asked)) && p !in dirs + old(files) && p != [] && Dir(p) in dirs
      ensures files == if ok then old(files) + {p} else old(files)
    {
      ok := Permits();
      ok := ok && p !in dirs && p !in files && p != [] && Dir(p) in dirs;
      if ok {
        files := files + {p};
      }
    }
  }

  // ----- Which directory each file opens -----

  /** The place among the prescribed directories of the file's parent. */
  function Slot(t: Layout, n: nat): nat
    requires t.Valid() && n < t.files
  {
    if t.shape == Healthy then LevelOf(t, n) + 1 else LevelOf(t, n)
  }

  /** How many directories exist once the first n files do. */
  function Opened(t: Layout, n: nat): nat
    requires t.Valid() && n <= t.files
  {
    if n == 0 then 1 else Slot(t, n - 1) + 1
  }

  lemma SlotIsParent(t: Layout, n: nat)
    requires t.Valid() && n < t.files
    ensures Parent(t, n) == Place(t, Slot(t, n)) && Dir(PathOf(t, n)) == Parent(t, n)
  {
    FrontOfAppended(Parent(t, n), FileName(n));
    if t.shape == Healthy {
      HealthySlot(t, n);
    }
  }

  lemma HealthySlot(t: Layout, n: nat)
    requires t.Valid() && n < t.files && t.shape == Healthy
    ensures LevelOf(t, n) == n / 16
  {
    assert t.Share() == 16;
  }

  lemma FrontOfAppended<T>(front: seq<T>, last: T)
    ensures (front + [last])[..|front + [last]| - 1] == front
  {
  }

  lemma QuotientStep(n: nat, s: nat)
    requires n > 0 && s > 0
    ensures n / s == if n % s == 0 then (n - 1) / s + 1 else (n - 1) / s
  {
    var q, m := n / s, n % s;
    assert n == s * q + m;
    if m == 0 {
      assert n - 1 == s * (q - 1) + (s - 1);
      QuotientIs(n - 1, s, q - 1, s - 1);
    } else {
      QuotientIs(n - 1, s, q, m - 1);
    }
  }

  lemma QuotientIs(n: nat, s: nat, q: int, m: nat)
    requires s > 0 && m < s && n == s * q + m
    ensures n / s == q
  {
    var d := n / s - q;
    assert s * d == m - n % s;
  }

  /** A directory is opened by the first file of each level below the root, and by no other. */
  lemma OpenedStep(t: Layout, n: nat)
    requires t.Valid() && n < t.files
    ensures t.Share() > 0
    ensures if n % t.Share() == 0 && Parent(t, n) != []
            then Slot(t, n) == Opened(t, n) && Opened(t, n + 1) == Opened(t, n) + 1
            else Opened(t, n + 1) == Opened(t, n)
  {
    LevelBound(t, n);
    if n > 0 {
      QuotientStep(n, t.Share());
    }
    RootSlot(t, n);
  }

  lemma RootSlot(t: Layout, n: nat)
    requires t.Valid() && n < t.files
    ensures Parent(t, n) == [] <==> Slot(t, n) == 0
  {
    SlotIsParent(t, n);
    if Parent(t, n) == [] {
      PlaceInjective(t, Slot(t, n), 0);
    }
  }

  lemma OpenedAll(t: Layout)
    requires t.Valid()
    ensures Opened(t, t.files) == t.DirectoryCount()
  {
    var s, l := t.Share(), t.Levels();
    LevelBound(t, t.files - 1);
    assert t.files - 1 == s * (l - 1) + (s - 1);
    QuotientIs(t.files - 1, s, l - 1, s - 1);
  }

  lemma PlaceIsNew(t: Layout, i: nat)
    ensures Place(t, i) !in Places(t, i)
  {
    if Place(t, i) in Places(t, i) {
      var j: nat :| j < i && Place(t, j) == Place(t, i);
      PlaceInjective(t, i, j);
    }
  }

  lemma PlacesGrow(t: Layout, i: nat)
    ensures Places(t, i + 1) == Places(t, i) + {Place(t, i)}
  {
  }

  lemma PlaceHasParent(t: Layout, i: nat)
    requires i > 0
    ensures Place(t, i) != [] && Dir(Place(t, i)) in Places(t, i)
  {
    var above := if t.shape == Healthy then 0 else i - 1;
    assert Dir(Place(t, i)) == Place(t, above);
  }

  /** No file shares its path with a directory. */
  lemma FileIsNoPlace(t: Layout, n: nat, i: nat)
    requires t.Valid() && n < t.files
    ensures PathOf(t, n) != Place(t, i)
  {
    var p, q := PathOf(t, n), Place(t, i);
    assert p[|p| - 1] == FileName(n) && FileName(n)[0] == 'f';
    if i > 0 {
      if t.shape == Healthy {
        assert q[|q| - 1] == BranchName(i - 1) && BranchName(i - 1)[0] == 'b';
      } else {
        assert q[|q| - 1] == LevelName(i) && LevelName(i)[0] == 'd';
      }
    }
  }

  lemma FileIsNew(t: Layout, n: nat)
    requires t.Valid() && n < t.files
    ensures PathOf(t, n) !in FilePaths(t, n) && FilePaths(t, n + 1) == FilePaths(t, n) + {PathOf(t, n)}
  {
    if PathOf(t, n) in FilePaths(t, n) {
      var m: nat :| m < n && PathOf(t, m) == PathOf(t, n);
      PathInjective(t, m, n);
    }
  }

  lemma KindsApart(t: Layout, n: nat, i: nat)
    requires t.Valid() && n <= t.files
    ensures Places(t, i) !! FilePaths(t, n)
  {
    forall p | p in FilePaths(t, n) ensures p !in Places(t, i) {
      var m: nat :| m < n && p == PathOf(t, m);
      if p in Places(t, i) {
        var j: nat :| j < i && p == Place(t, j);
        FileIsNoPlace(t, m, j);
      }
    }
  }

  /** A directory about to be opened is new and its own parent is there. */
  lemma OpensCleanly(t: Layout, n: nat)
    requires t.Valid() && n < t.files && Opened(t, n + 1) == Opened(t, n) + 1
    ensures Parent(t, n) != [] && Parent(t, n) !in Places(t, Opened(t, n)) + FilePaths(t, n)
    ensures Dir(Parent(t, n)) in Places(t, Opened(t, n))
    ensures Places(t, Opened(t, n + 1)) == Places(t, Opened(t, n)) + {Parent(t, n)}
  {
    var i := Opened(t, n);
    SlotIsParent(t, n);
    PlaceIsNew(t, i);
    PlacesGrow(t, i);
    PlaceHasParent(t, i);
    KindsApart(t, n, i + 1);
    assert Place(t, i) in Places(t, i + 1);
  }

  /** A file about to be created is new and its parent is there. */
  lemma CreatesCleanly(t: Layout, n: nat)
    requires t.Valid() && n < t.files
    ensures PathOf(t, n) !in Places(t, Opened(t, n + 1)) + FilePaths(t, n)
    ensures Dir(PathOf(t, n)) in Places(t, Opened(t, n + 1))
    ensures FilePaths(t, n + 1) == FilePaths(t, n) + {PathOf(t, n)}
  {
    SlotIsParent(t, n);
    FileIsNew(t, n);
    KindsApart(t, n + 1, Opened(t, n + 1));
  }

  /** Without its root a volume is empty. */
  lemma {:induction false} RootlessIsEmpty(v: Volume, p: Path)
    requires v.Tree() && p in v.dirs + v.files
    ensures [] in v.dirs
    decreases |p|
  {
    if p != [] {
      RootlessIsEmpty(v, Dir(p));
    }
  }

  lemma RootIsFirst(t: Layout)
    requires t.Valid()
    ensures Places(t, Opened(t, 0)) == {[]} && FilePaths(t, 0) == {}
  {
    PlacesGrow(t, 0);
    assert Places(t, 0) == {};
  }

  /** Creates, writes and closes a file. */
  method WriteFile(v: Volume, path: Path) returns (ok: bool)
    requires v.Tree() && path != [] && path !in v.dirs + v.files && Dir(path) in v.dirs
    modifies v`asked, v`files
    ensures v.Tree() && v.asked > old(v.asked)
    ensures ok <==> v.Calm(old(v.asked))
    ensures ok ==> v.files == old(v.files) + {path}
  {
    ok := v.Create(path);
    if !ok {
      assert v.faults(v.asked - 1);
      return;
    }
    ok := v.Permits();
    assert ok == !v.faults(v.asked - 1);
    var closed := v.Permits();
    ok := ok && closed;
  }

  /** Adds a file, after making its directory when it is the first one there. */
  method AddFile(v: Volume, path: Path, opens: bool) returns (ok: bool)
    requires v.Tree() && path != [] && path !in v.dirs + v.files
    requires if opens then Dir(path) != [] && Dir(path) !in v.dirs + v.files && Dir(Dir(path)) in v.dirs
             else Dir(path) in v.dirs
    modifies v
    ensures v.Tree() && v.asked > old(v.asked)
    ensures ok <==> v.Calm(old(v.asked))
    ensures ok ==> v.files == old(v.files) + {path} && v.dirs == old(v.dirs) + (if opens then {Dir(path)} else {})
  {
    ghost var start := v.asked;
    ok := v.Permits();
    if !ok {
      assert v.faults(start);
      return;
    }
    if opens {
      ok := v.Mkdir(Dir(path));
      if !ok {
        assert v.faults(start + 1);
        return;
      }
    }
    assert v.Calm(start);
    ok := WriteFile(v, path);
  }

  /** The next file meets what adding it requires, and adding it moves on by one file. */
  lemma NextFile(t: Layout, n: nat)
    requires t.Valid() && n < t.files
    ensures t.Share() > 0 && PathOf(t, n) != []
    ensures var path, dirs, files := PathOf(t, n), Places(t, Opened(t, n)), FilePaths(t, n);
            var opens := n % t.Share() == 0 && Dir(path) != [];
            && path !in dirs + files
            && (if opens then Dir(path) !in dirs + files && Dir(Dir(path)) in dirs else Dir(path) in dirs)
            && FilePaths(t, n + 1) == files + {path}
            && Places(t, Opened(t, n + 1)) == dirs + if opens then {Dir(path)} else {}
  {
    OpenedStep(t, n);
    SlotIsParent(t, n);
    CreatesCleanly(t, n);
    if n % t.Share() == 0 && Parent(t, n) != [] {
      OpensCleanly(t, n);
    }
  }

  /** Generates the topology. Every directory below the root is made exactly once, before its first
      file: making one that is there, or creating in one that is not, would fail without a fault. */
  method Generate(v: Volume, t: Layout) returns (ok: bool)
    requires v.Tree()
    modifies v
    ensures v.Tree()
    ensures !t.Valid() || [] in old(v.dirs) ==> !ok && v.dirs == old(v.dirs) && v.files == old(v.files)
    ensures t.Valid() && [] !in old(v.dirs) ==> (ok <==> v.Calm(old(v.asked)))
    ensures ok ==> v.dirs == Prescribed(t) && v.files == FilePaths(t, t.files)
  {
    if !t.Valid() {
      return false;
    }
    forall p | p in v.dirs + v.files ensures [] in v.dirs {
      RootlessIsEmpty(v, p);
    }
    ok := v.Mkdir([]);
    if !ok {
      return;
    }
    RootIsFirst(t);
    for n := 0 to t.files
      invariant v.Tree() && v.asked > old(v.asked) && v.Calm(old(v.asked))
      invariant v.dirs == Places(t, Opened(t, n)) && v.files == FilePaths(t, n)
    {
      NextFile(t, n);
      var path := PathOf(t, n);
      ok := AddFile(v, path, n % t.Share() == 0 && Dir(path) != []);
      if !ok {
        return;
      }
    }
    OpenedAll(t);
    ok := true;
  }

  // ----- Inspecting what was generated -----

  ghost function FilesOf(t: Layout): set<Path>
    requires t.Valid()
  {
    FilePaths(t, t.files)
  }

  lemma FilesAreListed(t: Layout, disk: Path -> Node)
    requires t.Valid()
    ensures PlacesAre(RulesOf(t, disk), FilesOf(t))
  {
    var r := RulesOf(t, disk);
    forall n: nat | n < r.files ensures r.place(n) in FilesOf(t) {
      assert PathOf(t, n) in FilePaths(t, t.files);
    }
    forall p | p in FilesOf(t) ensures exists n: nat :: n < r.files && r.place(n) == p {
      var n: nat :| n < t.files && p == PathOf(t, n);
      assert r.place(n) == p;
    }
  }

  /** An inspection accepts a disk exactly when it shows what generation makes. */
  lemma AcceptsWhatIsGenerated(t: Layout, disk: Path -> Node)
    requires t.Valid()
    ensures Accepts(RulesOf(t, disk), []) <==> Shows(disk, Child, [], Prescribed(t), FilePaths(t, t.files))
  {
    var r := RulesOf(t, disk);
    RulesCohere(t, disk);
    FilesAreListed(t, disk);
    InspectionExact(t, disk);
    ShowsExactly(r, Nesting(Inside, Depth), [], Prescribed(t), FilesOf(t));
  }

  // ----- There is such a disk -----

  /** A set as a sequence without repetition. */
  ghost function Enumeration<T(!new)>(s: set<T>): (q: seq<T>)
    ensures forall x :: x in q <==> x in s
    ensures forall i, j :: 0 <= i < j < |q| ==> q[i] != q[j]
  {
    if s == {} then [] else
      var x :| x in s;
      Enumeration(s - {x}) + [x]
  }

  ghost function Position<T>(q: seq<T>, x: T): (i: nat)
    requires x in q
    ensures i < |q| && q[i] == x
  {
    if q[0] == x then 0 else 1 + Position(q[1..], x)
  }

  ghost function NamesIn(paths: set<Path>, d: Path): set<string> {
    set p | p in paths && p != [] && Dir(p) == d :: p[|p| - 1]
  }

  /** What a volume holding these directories and files looks like. */
  ghost function NodeAt(dirs: set<Path>, files: set<Path>, p: Path): Node {
    if p in dirs then Directory(Position(Enumeration(dirs), p), true, Enumeration(NamesIn(dirs + files, p)))
    else if p in files then Regular(Position(Enumeration(files), p), true)
    else Other
  }

  ghost function DiskOf(dirs: set<Path>, files: set<Path>): Path -> Node {
    p => NodeAt(dirs, files, p)
  }

  lemma ListsExactly(dirs: set<Path>, files: set<Path>, d: Path)
    requires d in dirs
    ensures HoldsOnly(DiskOf(dirs, files), Child, d, dirs + files)
  {
    var names := NodeAt(dirs, files, d).names;
    forall i | 0 <= i < |names| ensures Child(d, names[i]) in dirs + files {
      assert names[i] in NamesIn(dirs + files, d);
      var p :| p in dirs + files && p != [] && Dir(p) == d && p[|p| - 1] == names[i];
      assert p == Child(d, names[i]);
    }
  }

  lemma ListedByParent(dirs: set<Path>, files: set<Path>, p: Path)
    requires p in dirs + files && p != [] && Dir(p) in dirs
    ensures HeldIn(DiskOf(dirs, files), Child, dirs, p)
  {
    var d, name := Dir(p), p[|p| - 1];
    assert name in NamesIn(dirs + files, d);
    var names := NodeAt(dirs, files, d).names;
    var i :| 0 <= i < |names| && names[i] == name;
    assert Child(d, names[i]) == p;
    assert DiskOf(dirs, files)(d).Directory?;
  }

  lemma ObjectsApart(dirs: set<Path>, files: set<Path>, p: Path, q: Path)
    requires p != q && dirs !! files && ((p in dirs && q in dirs) || (p in files && q in files))
    ensures !SameObject(NodeAt(dirs, files, p), NodeAt(dirs, files, q))
  {
  }

  /** Every path below the root lies in a directory that is there. */
  ghost predicate Closed(dirs: set<Path>, files: set<Path>) {
    forall p :: p in dirs + files && p != [] ==> Dir(p) in dirs
  }

  lemma TreeShows(dirs: set<Path>, files: set<Path>)
    requires Closed(dirs, files) && dirs !! files && [] in dirs
    ensures Shows(DiskOf(dirs, files), Child, [], dirs, files)
  {
    var disk := DiskOf(dirs, files);
    forall d | d in dirs ensures HoldsOnly(disk, Child, d, dirs + files) {
      ListsExactly(dirs, files, d);
    }
    forall p | p in dirs + files && p != [] ensures HeldIn(disk, Child, dirs, p) {
      ListedByParent(dirs, files, p);
    }
    forall p, q | p != q && ((p in dirs && q in dirs) || (p in files && q in files))
      ensures !SameObject(disk(p), disk(q))
    {
      ObjectsApart(dirs, files, p, q);
    }
    forall p | p in files ensures disk(p).Regular? && disk(p).sound {
      assert p !in dirs;
    }
  }

  /** Generate and inspect: a volume on which generation has succeeded is accepted. */
  lemma GeneratedIsAccepted(v: Volume, t: Layout)
    requires t.Valid() && v.Tree() && v.dirs == Prescribed(t) && v.files == FilePaths(t, t.files)
    ensures Accepts(RulesOf(t, DiskOf(v.dirs, v.files)), [])
  {
    AllowedIsPrescribed(t, []);
    TreeShows(v.dirs, v.files);
    AcceptsWhatIsGenerated(t, DiskOf(v.dirs, v.files));
  }
}
