/** The configuration and its validation: normalized paths, roots apart from each other and not
    excluded, and budgets within bounds. */
module Config {
  import opened Basics
  import opened Paths

  const VERSION: int := 1
  const MIN_STATE_BYTES: int := 0x10_0000
  const MAX_STATE_BYTES: int := 0x100_0000_0000

  datatype Scan = Scan(workSeconds: int, intervalSeconds: int, metadataPerSecond: int, apiAttemptsPerSecond: int,
                       metadataAttemptsPerDay: int, readBytesPerSecond: int, readBytesPerDay: int,
                       pauseOnBattery: bool, maxScanChunksPerDay: int, maxStateBytes: int,
                       adaptiveRevisits: bool, compactInventory: bool, cpuSessionCharges: bool,
                       cpuChargeSecondsPerHour: int, cpuChargeSecondsPerDay: int)

  datatype Settings = Settings(version: int, roots: seq<string>, excludes: seq<string>, scan: Scan)

  predicate ScanOk(s: Scan) {
    && 0 <= s.cpuChargeSecondsPerHour <= 3600 && 0 <= s.cpuChargeSecondsPerDay <= 86400
    && (s.cpuSessionCharges || (s.cpuChargeSecondsPerHour == 0 && s.cpuChargeSecondsPerDay == 0))
    && !(s.compactInventory && s.adaptiveRevisits)
    && MIN_STATE_BYTES <= s.maxStateBytes <= MAX_STATE_BYTES
    && 1 <= s.maxScanChunksPerDay <= 100000
    && 1 <= s.workSeconds <= s.intervalSeconds <= 86400
    && 1 <= s.metadataPerSecond <= 100000
    && 0 <= s.apiAttemptsPerSecond <= 100000
    && 1 <= s.metadataAttemptsPerDay <= 0x4_0000_0000_0000
    && 1 <= s.readBytesPerSecond <= 0x4000_0000 && 1 <= s.readBytesPerDay <= 0x4_0000_0000_0000
  }

  function Normalizer(home: string): string -> Option<string> {
    p => NormalizePath(p, home)
  }

  function NormalizeAll(ps: seq<string>, home: string): Option<seq<string>> {
    MapAll(Normalizer(home), ps)
  }

  /** "The first path is the second one or below it", as a relation that the checks are given. */
  function Containment(): (string, string) -> bool {
    (path, root) => Within(path, root)
  }

  /** The i-th root overlaps no earlier one and does not lie in an exclusion. */
  predicate Clear(within: (string, string) -> bool, roots: seq<string>, excludes: seq<string>, i: nat)
    requires i < |roots|
  {
    && (forall j :: 0 <= j < i ==> !within(roots[i], roots[j]) && !within(roots[j], roots[i]))
    && (forall j :: 0 <= j < |excludes| ==> !within(roots[i], excludes[j]))
  }

  predicate Apart(within: (string, string) -> bool, roots: seq<string>, excludes: seq<string>) {
    forall i :: 0 <= i < |roots| ==> Clear(within, roots, excludes, i)
  }

  /** The validated settings with normalized paths, or nothing when validation fails. */
  function Validated(c: Settings, home: string): Option<Settings> {
    if c.version != VERSION || c.roots == [] then None
    else
      var roots, excludes := NormalizeAll(c.roots, home), NormalizeAll(c.excludes, home);
      if roots.None? || excludes.None? || !Apart(Containment(), roots.value, excludes.value)
        || !ScanOk(c.scan) then None
      else Some(c.(roots := roots.value, excludes := excludes.value))
  }

  lemma NormalizeAllShape(ps: seq<string>, home: string)
    ensures NormalizeAll(ps, home).Some? <==> forall i :: 0 <= i < |ps| ==> NormalizePath(ps[i], home).Some?
    ensures NormalizeAll(ps, home).Some? ==>
              var r := NormalizeAll(ps, home).value;
              |r| == |ps| && forall i :: 0 <= i < |ps| ==> NormalizePath(ps[i], home) == Some(r[i])
  {
    var f := Normalizer(home);
    MapAllShape(f, ps);
    assert forall i :: 0 <= i < |ps| ==> f(ps[i]) == NormalizePath(ps[i], home);
  }

  lemma NormalizeAllIs(ps: seq<string>, home: string, r: seq<string>)
    requires |r| == |ps| && forall i :: 0 <= i < |ps| ==> NormalizePath(ps[i], home) == Some(r[i])
    ensures NormalizeAll(ps, home) == Some(r)
  {
    MapAllIs(Normalizer(home), ps, r);
  }

  /** The configuration object. Validation normalizes its lists in place; after a failure the
      caller discards it. */
  class ConfigObject {
    var version: int
    var roots: seq<string>
    var excludes: seq<string>
    var scan: Scan

    constructor (c: Settings)
      ensures Contents() == c
    {
      version, roots, excludes, scan := c.version, c.roots, c.excludes, c.scan;
    }

    function Contents(): Settings
      reads this
    {
      Settings(version, roots, excludes, scan)
    }

    static method NormalizeList(ps: seq<string>, home: string) returns (ok: bool, r: seq<string>)
      ensures ok <==> NormalizeAll(ps, home).Some?
      ensures ok ==> r == NormalizeAll(ps, home).value
    {
      r := ps;
      NormalizeAllShape(ps, home);
      for i := 0 to |ps|
        invariant |r| == |ps| && r[i..] == ps[i..]
        invariant forall j :: 0 <= j < i ==> NormalizePath(ps[j], home) == Some(r[j])
      {
        assert r[i] == r[i..][0] == ps[i];
        var normalized := NormalizePath(r[i], home);
        if normalized.None? {
          return false, r;
        }
        r := r[i := normalized.value];
      }
      NormalizeAllIs(ps, home, r);
      ok := true;
    }

    static method RootClear(within: (string, string) -> bool, roots: seq<string>, excludes: seq<string>, i: nat)
      returns (ok: bool)
      requires i < |roots|
      ensures ok == Clear(within, roots, excludes, i)
    {
      for j := 0 to i
        invariant forall k :: 0 <= k < j ==> !within(roots[i], roots[k]) && !within(roots[k], roots[i])
      {
        if within(roots[i], roots[j]) || within(roots[j], roots[i]) {
          return false;
        }
      }
      for j := 0 to |excludes|
        invariant forall k :: 0 <= k < j ==> !within(roots[i], excludes[k])
      {
        if within(roots[i], excludes[j]) {
          return false;
        }
      }
      ok := true;
    }

    static method RootsApart(within: (string, string) -> bool, roots: seq<string>, excludes: seq<string>)
      returns (ok: bool)
      ensures ok == Apart(within, roots, excludes)
    {
      for i := 0 to |roots|
        invariant forall k :: 0 <= k < i ==> Clear(within, roots, excludes, k)
      {
        var clear := RootClear(within, roots, excludes, i);
        if !clear {
          return false;
        }
      }
      ok := true;
    }

    /** The chain of guards on the scan settings. */
    static method InRange(s: Scan) returns (ok: bool)
      ensures ok == ScanOk(s)
    {
      if s.cpuChargeSecondsPerHour < 0 || s.cpuChargeSecondsPerHour > 3600
        || s.cpuChargeSecondsPerDay < 0 || s.cpuChargeSecondsPerDay > 86400 {
        return false;
      }
      if !s.cpuSessionCharges && (s.cpuChargeSecondsPerHour != 0 || s.cpuChargeSecondsPerDay != 0) {
        return false;
      }
      if s.compactInventory && s.adaptiveRevisits {
        return false;
      }
      if s.maxStateBytes < MIN_STATE_BYTES || s.maxStateBytes > MAX_STATE_BYTES {
        return false;
      }
      if s.maxScanChunksPerDay < 1 || s.maxScanChunksPerDay > 100000 {
        return false;
      }
      if s.workSeconds < 1 || s.intervalSeconds < s.workSeconds || s.intervalSeconds > 86400 {
        return false;
      }
      if s.metadataPerSecond < 1 || s.metadataPerSecond > 100000 {
        return false;
      }
      if s.apiAttemptsPerSecond < 0 || s.apiAttemptsPerSecond > 100000 {
        return false;
      }
      if s.metadataAttemptsPerDay < 1 || s.metadataAttemptsPerDay > 0x4_0000_0000_0000 {
        return false;
      }
      ok := 1 <= s.readBytesPerSecond <= 0x4000_0000 && 1 <= s.readBytesPerDay <= 0x4_0000_0000_0000;
    }

    method Validate(home: string) returns (ok: bool)
      modifies this
      ensures ok <==> old(Validated(Contents(), home)).Some?
      ensures ok ==> Contents() == old(Validated(Contents(), home)).value
    {
      if version != VERSION || roots == [] {
        return false;
      }
      ok, roots := NormalizeList(roots, home);
      if !ok {
        return;
      }
      ok, excludes := NormalizeList(excludes, home);
      if !ok {
        return;
      }
      ok := RootsApart(Containment(), roots, excludes);
      if !ok {
        return;
      }
      ok := InRange(scan);
    }
  }

  // ----- What validation guarantees -----

  /** The paths, each normalized under the home directory. */
  ghost predicate Normalized(ps: seq<string>, home: string, qs: seq<string>) {
    |qs| == |ps| && forall i :: 0 <= i < |ps| ==> NormalizePath(ps[i], home) == Some(qs[i])
  }

  /** No path of the first list is the same as, or lies below, a different one of the second. */
  ghost predicate NoneBelow(ps: seq<string>, qs: seq<string>, same: bool) {
    forall i, j :: 0 <= i < |ps| && 0 <= j < |qs| && (same ==> i != j) ==> !(Components(qs[j]) <= Components(ps[i]))
  }

  lemma NormalizedIs(ps: seq<string>, home: string, qs: seq<string>)
    ensures NormalizeAll(ps, home) == Some(qs) <==> Normalized(ps, home, qs)
  {
    NormalizeAllShape(ps, home);
    if Normalized(ps, home, qs) {
      NormalizeAllIs(ps, home, qs);
    }
  }

  lemma ApartIs(roots: seq<string>, excludes: seq<string>)
    ensures Apart(Containment(), roots, excludes) <==>
            NoneBelow(roots, roots, true) && NoneBelow(roots, excludes, false)
  {
    var within := Containment();
    forall p, q ensures within(p, q) <==> Components(q) <= Components(p) {
      WithinIsPrefix(p, q);
    }
    if Apart(within, roots, excludes) {
      forall i, j | 0 <= i < |roots| && 0 <= j < |roots| && i != j
        ensures !(Components(roots[j]) <= Components(roots[i]))
      {
        assert Clear(within, roots, excludes, if i < j then j else i);
      }
      forall i, j | 0 <= i < |roots| && 0 <= j < |excludes|
        ensures !(Components(excludes[j]) <= Components(roots[i]))
      {
        assert Clear(within, roots, excludes, i);
      }
    }
  }

  /** What validation makes of the settings, said directly: the first version, at least one root, the
      paths normalized, no root the same as or below another one or an exclusion, and every scan
      setting in its range. */
  lemma ValidatedExactly(c: Settings, home: string, v: Settings)
    ensures Validated(c, home) == Some(v) <==>
            && v == c.(roots := v.roots, excludes := v.excludes) && c.version == 1 && c.roots != []
            && Normalized(c.roots, home, v.roots) && Normalized(c.excludes, home, v.excludes)
            && NoneBelow(v.roots, v.roots, true) && NoneBelow(v.roots, v.excludes, false)
            && 0 <= c.scan.cpuChargeSecondsPerHour <= 3600 && 0 <= c.scan.cpuChargeSecondsPerDay <= 86400
            && (c.scan.cpuChargeSecondsPerHour + c.scan.cpuChargeSecondsPerDay > 0 ==> c.scan.cpuSessionCharges)
            && !(c.scan.compactInventory && c.scan.adaptiveRevisits)
            && 1024 * 1024 <= c.scan.maxStateBytes <= 1024 * 1024 * 1024 * 1024
            && 1 <= c.scan.maxScanChunksPerDay <= 100000
            && 1 <= c.scan.workSeconds <= c.scan.intervalSeconds <= 24 * 60 * 60
            && 1 <= c.scan.metadataPerSecond <= 100000 && 0 <= c.scan.apiAttemptsPerSecond <= 100000
            && 1 <= c.scan.metadataAttemptsPerDay <= 1024 * 1024 * 1024 * 1024 * 1024
            && 1 <= c.scan.readBytesPerSecond <= 1024 * 1024 * 1024
            && 1 <= c.scan.readBytesPerDay <= 1024 * 1024 * 1024 * 1024 * 1024
  {
    NormalizedIs(c.roots, home, v.roots);
    NormalizedIs(c.excludes, home, v.excludes);
    ApartIs(v.roots, v.excludes);
  }

  /** Every path lies in at most one root, and no root lies inside an exclusion. */
  lemma RootsPartition(c: Settings, home: string, path: string, i: nat, j: nat)
    requires Validated(c, home).Some?
    requires var v := Validated(c, home).value;
             i < |v.roots| && j < |v.roots| && Within(path, v.roots[i]) && Within(path, v.roots[j])
    ensures i == j
    ensures forall k :: 0 <= k < |Validated(c, home).value.excludes| ==>
              !Within(Validated(c, home).value.roots[i], Validated(c, home).value.excludes[k])
  {
    var v := Validated(c, home).value;
    var within := Containment();
    assert Clear(within, v.roots, v.excludes, i) && Clear(within, v.roots, v.excludes, j);
    assert forall k :: 0 <= k < |v.excludes| ==> within(v.roots[i], v.excludes[k]) == Within(v.roots[i], v.excludes[k]);
    if i != j {
      SharedPathNests(path, v.roots[i], v.roots[j]);
    }
  }

  lemma SharedPathNests(path: string, a: string, b: string)
    requires Within(path, a) && Within(path, b)
    ensures Within(a, b) || Within(b, a)
  {
    WithinIsPrefix(path, a);
    WithinIsPrefix(path, b);
    WithinIsPrefix(a, b);
    WithinIsPrefix(b, a);
    PrefixesNest(Components(a), Components(b), Components(path));
  }

  lemma PrefixesNest(a: seq<string>, b: seq<string>, p: seq<string>)
    requires a <= p && b <= p
    ensures a <= b || b <= a
  {
    if |a| <= |b| {
      assert b[..|a|] == p[..|a|] == a;
    } else {
      assert a[..|b|] == p[..|b|] == b;
    }
  }

  ghost predicate Normal(ps: seq<string>) {
    forall p :: p in ps ==> NormalPath(p)
  }

  /** Absolute, NUL-free and clean, so normalizing leaves it alone under any home directory. */
  ghost predicate NormalPath(p: string) {
    IsAbs(p) && '\0' !in p && Clean(p) == p
  }

  lemma NormalPathStays(p: string, home: string)
    requires NormalPath(p)
    ensures NormalizePath(p, home) == Some(p)
  {
    assert "~/"[0] == '~' && p[0] == '/';
    assert Expanded(p, home) == p;
  }

  lemma NormalizeAllNormal(ps: seq<string>, home: string)
    requires NormalizeAll(ps, home).Some?
    ensures Normal(NormalizeAll(ps, home).value)
  {
    NormalizeAllShape(ps, home);
    var r := NormalizeAll(ps, home).value;
    forall p | p in r ensures NormalPath(p) {
      var i :| 0 <= i < |r| && r[i] == p;
      NormalizeIdempotent(ps[i], home, home);
    }
  }

  lemma NormalStays(ps: seq<string>, home: string)
    requires Normal(ps)
    ensures NormalizeAll(ps, home) == Some(ps)
  {
    forall i | 0 <= i < |ps| ensures NormalizePath(ps[i], home) == Some(ps[i]) {
      NormalPathStays(ps[i], home);
    }
    NormalizeAllIs(ps, home, ps);
  }

  /** Validating again, under any home directory, changes nothing. */
  lemma ValidateIdempotent(c: Settings, home: string, home': string)
    requires Validated(c, home).Some?
    ensures Validated(Validated(c, home).value, home') == Validated(c, home)
  {
    NormalizeAllNormal(c.roots, home);
    NormalizeAllNormal(c.excludes, home);
    NormalizeAllShape(c.roots, home);
    var v := Validated(c, home).value;
    NormalStays(v.roots, home');
    NormalStays(v.excludes, home');
  }
}
