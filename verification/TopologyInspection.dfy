/** The inspection of a generated topology: it accepts exactly the trees that hold what the topology
    prescribes and nothing else. */
module TopologyInspection {
  import opened Basics
  import opened Topology
  import opened TopologyOracle

  function Child(d: Path, name: string): Path {
    d + [name]
  }

  predicate Inside(p: Path, d: Path) {
    d <= p
  }

  function Depth(p: Path): nat {
    |p|
  }

  function RulesOf(t: Layout, disk: Path -> Node): Rules<Path>
    requires t.Valid()
  {
    Rules(t.DirectoryCount(), t.files, d => DirectoryAllowed(t, d),
          (n: nat) => if n < t.files then PathOf(t, n) else [], Child, Ordinal, disk)
  }

  lemma PathsNest(r: Rules<Path>)
    requires r.child == Child
    ensures Nests(r, Nesting(Inside, Depth))
  {
    var g := Nesting(Inside, Depth);
    forall p, d, a: string, b: string | g.inside(p, r.child(d, a)) && g.inside(p, r.child(d, b)) ensures a == b {
      assert p[|d|] == Child(d, a)[|d|] == Child(d, b)[|d|];
    }
  }

  lemma FileSpells(t: Layout, d: Path, a: string, n: nat)
    requires t.Valid() && n < t.files && Child(d, a) == PathOf(t, n)
    ensures Ordinal(a) == Some(n)
  {
    var p := PathOf(t, n);
    assert p[|p| - 1] == a && p[|p| - 1] == FileName(n);
    OrdinalOfName(n);
  }

  lemma RulesCohere(t: Layout, disk: Path -> Node)
    requires t.Valid()
    ensures Coherent(RulesOf(t, disk), Nesting(Inside, Depth), Prescribed(t))
  {
    var r := RulesOf(t, disk);
    PathsNest(r);
    PrescribedCount(t);
    forall d ensures r.allowed(d) <==> d in Prescribed(t) {
      AllowedIsPrescribed(t, d);
    }
    forall m: nat, n: nat | m < n < r.files ensures r.place(m) != r.place(n) {
      if PathOf(t, m) == PathOf(t, n) {
        PathInjective(t, m, n);
      }
    }
    forall d, a: string, n: nat | n < r.files && r.child(d, a) == r.place(n) ensures r.ordinal(a) == Some(n) {
      FileSpells(t, d, a, n);
    }
  }

  /** The walk and its two counts accept a disk exactly when the tree at its root is the prescribed
      one. The walk needs no bound of its own: the directory budget ends it on any disk. */
  lemma InspectionExact(t: Layout, disk: Path -> Node)
    requires t.Valid()
    ensures Accepts(RulesOf(t, disk), []) <==> AsPrescribed(RulesOf(t, disk), [])
  {
    RulesCohere(t, disk);
    AcceptsExactly(RulesOf(t, disk), Nesting(Inside, Depth), Prescribed(t), []);
  }
}
