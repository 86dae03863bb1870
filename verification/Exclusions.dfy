/** The exclusion editor: literal and normalized exclusions edited in lockstep, so that what is
    written decodes to what is reported. The TOML codec is a parameter. */
module Exclusions {
  import opened Basics
  import opened Paths
  import opened Config

  const PATH_LIMIT: int := 128
  const MAX_PATH_BYTES: int := 4096
  const MAX_CONFIG_BYTES: int := 0x10_0000

  type Bytes = seq<int>

  datatype Codec = Codec(decode: Bytes -> Option<Settings>, encode: Settings -> Option<Bytes>)

  /** What is assumed of the codec: decoding what was encoded gives it back. */
  ghost predicate RoundTrips(codec: Codec) {
    forall c :: codec.encode(c).Some? ==> codec.decode(codec.encode(c).value) == Some(c)
  }

  predicate Bounded(p: string) {
    ByteLen(p) <= MAX_PATH_BYTES && '\0' !in p
  }

  predicate ValidExclusionPath(p: string) {
    p != "" && Bounded(p) && IsAbs(p)
  }

  predicate AllBounded(ps: seq<string>) {
    forall p :: p in ps ==> Bounded(p)
  }

  predicate AllValid(ps: seq<string>) {
    forall p :: p in ps ==> ValidExclusionPath(p)
  }

  /** The literal settings and the normalized ones. */
  datatype Pair = Pair(raw: Settings, normal: Settings) {
    predicate InStep() { |raw.excludes| == |normal.excludes| }
  }

  function DecodeEditor(codec: Codec, data: Bytes, home: string): (r: Option<Pair>)
    ensures r.Some? ==> r.value.InStep()
  {
    if |data| > MAX_CONFIG_BYTES || codec.decode(data).None? then None
    else Admit(codec.decode(data).value, home)
  }

  function Admit(c: Settings, home: string): (r: Option<Pair>)
    ensures r.Some? ==> r.value.InStep()
  {
    if |c.roots| > PATH_LIMIT || |c.excludes| > PATH_LIMIT || !AllBounded(c.roots) || !AllBounded(c.excludes) then None
    else
      var v := Validated(c, home);
      if v.None? || !AllValid(v.value.roots) || !AllValid(v.value.excludes) then None
      else NormalizeAllShape(c.excludes, home); Some(Pair(c, v.value))
  }

  // ----- The edit -----

  /** The elements of `xs` whose counterpart in `keys` is not `key`. */
  function Dropped<T, K(==)>(xs: seq<T>, keys: seq<K>, key: K): seq<T>
    requires |xs| == |keys|
  {
    if xs == [] then [] else
      var n := |xs| - 1;
      Dropped(xs[..n], keys[..n], key) + if keys[n] == key then [] else [xs[n]]
  }

  datatype Outcome = Failed | NotNeeded(list: seq<string>) | Candidate(bytes: Bytes, list: seq<string>)

  function Edit(codec: Codec, data: Bytes, home: string, action: string, path: string): Outcome {
    if (action != "add" && action != "remove") || !ValidExclusionPath(path) then Failed
    else
      var pair := DecodeEditor(codec, data, home);
      if pair.None? then Failed else Edited(codec, pair.value, home, action == "add", Clean(path))
  }

  function Edited(codec: Codec, pair: Pair, home: string, add: bool, path: string): Outcome
    requires pair.InStep()
  {
    var (raw, normal) := (pair.raw, pair.normal);
    if add == (path in normal.excludes) then NotNeeded(normal.excludes)
    else if add && |normal.excludes| >= PATH_LIMIT then Failed
    else
      var next := if add then normal.excludes + [path] else Dropped(normal.excludes, normal.excludes, path);
      var nextRaw := if add then raw.excludes + [path] else Dropped(raw.excludes, normal.excludes, path);
      Encoded(codec, raw.(excludes := nextRaw), Validated(normal.(excludes := next), home))
  }

  function Encoded(codec: Codec, raw: Settings, checked: Option<Settings>): Outcome {
    if checked.None? || codec.encode(raw).None? || |codec.encode(raw).value| > MAX_CONFIG_BYTES then Failed
    else Candidate(codec.encode(raw).value, checked.value.excludes)
  }

  lemma PrefixNext<T>(s: seq<T>, i: nat)
    requires i < |s|
    ensures s[..i + 1] == s[..i] + [s[i]]
  {
  }

  lemma DroppedNext<T, K>(xs: seq<T>, keys: seq<K>, key: K, x: T, k: K)
    requires |xs| == |keys|
    ensures Dropped(xs + [x], keys + [k], key) == Dropped(xs, keys, key) + if k == key then [] else [x]
  {
    assert (xs + [x])[..|xs|] == xs && (keys + [k])[..|keys|] == keys;
  }

  /** The loop that walks both lists. */
  method EditLists<K(==), T>(normal: seq<K>, raw: seq<T>, remove: bool, path: K)
    returns (next: seq<K>, nextRaw: seq<T>, found: bool)
    requires |normal| == |raw|
    ensures found == (path in normal)
    ensures next == if remove then Dropped(normal, normal, path) else normal
    ensures nextRaw == if remove then Dropped(raw, normal, path) else raw
  {
    next, nextRaw, found := [], [], false;
    for i := 0 to |normal|
      invariant found == (path in normal[..i])
      invariant next == if remove then Dropped(normal[..i], normal[..i], path) else normal[..i]
      invariant nextRaw == if remove then Dropped(raw[..i], normal[..i], path) else raw[..i]
    {
      PrefixNext(normal, i);
      PrefixNext(raw, i);
      DroppedNext(normal[..i], normal[..i], path, normal[i], normal[i]);
      DroppedNext(raw[..i], normal[..i], path, raw[i], normal[i]);
      if normal[i] == path {
        found := true;
        if remove {
          continue;
        }
      }
      next, nextRaw := next + [normal[i]], nextRaw + [raw[i]];
    }
    assert normal[..|normal|] == normal && raw[..|raw|] == raw;
  }

  /** Everything of the edit up to publication. */
  method EditExclusion(codec: Codec, data: Bytes, home: string, action: string, given: string) returns (r: Outcome)
    ensures r == Edit(codec, data, home, action, given)
  {
    if (action != "add" && action != "remove") || !ValidExclusionPath(given) {
      return Failed;
    }
    var path := Clean(given);
    var pair := DecodeEditor(codec, data, home);
    if pair.None? {
      return Failed;
    }
    var raw, normal := pair.value.raw, pair.value.normal;
    var next, nextRaw, found := EditLists(normal.excludes, raw.excludes, action == "remove", path);
    if (action == "add" && found) || (action == "remove" && !found) {
      return NotNeeded(normal.excludes);
    }
    if action == "add" {
      if |next| >= PATH_LIMIT {
        return Failed;
      }
      next, nextRaw := next + [path], nextRaw + [path];
    }
    var config := new ConfigObject(normal.(excludes := next));
    var ok := config.Validate(home);
    if !ok {
      return Failed;
    }
    var encoded := codec.encode(raw.(excludes := nextRaw));
    if encoded.None? || |encoded.value| > MAX_CONFIG_BYTES {
      return Failed;
    }
    r := Candidate(encoded.value, config.excludes);
  }

  // ----- Lists in lockstep -----

  /** Dropping and normalizing commute. */
  lemma {:induction false} DroppedLockstep<K>(f: string -> Option<K>, raw: seq<string>, normal: seq<K>, key: K)
    requires MapAll(f, raw) == Some(normal)
    ensures |raw| == |normal| && MapAll(f, Dropped(raw, normal, key)) == Some(Dropped(normal, normal, key))
  {
    MapAllShape(f, raw);
    if raw != [] {
      var n := |raw| - 1;
      assert normal[..n] == MapAll(f, raw[..n]).value;
      DroppedLockstep(f, raw[..n], normal[..n], key);
      var d := Dropped(raw[..n], normal[..n], key);
      if normal[n] != key {
        assert (d + [raw[n]])[..|d|] == d;
      } else {
        assert Dropped(raw, normal, key) == d;
        assert Dropped(normal, normal, key) == Dropped(normal[..n], normal[..n], key);
      }
    }
  }

  lemma {:induction false} DroppedSubset<T, K>(xs: seq<T>, keys: seq<K>, key: K)
    requires |xs| == |keys|
    ensures |Dropped(xs, keys, key)| <= |xs|
    ensures forall x :: x in Dropped(xs, keys, key) ==> x in xs
  {
    if xs != [] {
      DroppedSubset(xs[..|xs| - 1], keys[..|xs| - 1], key);
    }
  }

  /** Exactly the elements other than the key remain. */
  lemma {:induction false} DroppedMembers<K>(keys: seq<K>, key: K, x: K)
    ensures x in Dropped(keys, keys, key) <==> x in keys && x != key
  {
    if keys != [] {
      var n := |keys| - 1;
      DroppedMembers(keys[..n], key, x);
      assert keys == keys[..n] + [keys[n]];
    }
  }

  /** Nothing is dropped when the key does not occur. */
  lemma {:induction false} DroppedAbsent<T, K>(xs: seq<T>, keys: seq<K>, key: K)
    requires |xs| == |keys| && key !in keys
    ensures Dropped(xs, keys, key) == xs
  {
    if xs != [] {
      var n := |xs| - 1;
      DroppedAbsent(xs[..n], keys[..n], key);
      assert xs == xs[..n] + [xs[n]];
    }
  }

  lemma MapAllAppend<A, B>(f: A -> Option<B>, xs: seq<A>, ys: seq<B>, x: A, y: B)
    requires MapAll(f, xs) == Some(ys) && f(x) == Some(y)
    ensures MapAll(f, xs + [x]) == Some(ys + [y])
  {
    assert (xs + [x])[..|xs|] == xs;
  }

  // ----- Every edit keeps literal and normalized settings in lockstep -----

  /** A pair that the editor would decode from bytes encoding its literal settings. */
  ghost predicate Admissible(pair: Pair, home: string) {
    Admit(pair.raw, home) == Some(pair)
  }

  lemma Decodes(codec: Codec, c: Settings, home: string, pair: Pair)
    requires RoundTrips(codec) && codec.encode(c).Some? && |codec.encode(c).value| <= MAX_CONFIG_BYTES
    requires pair.raw == c && Admissible(pair, home)
    ensures DecodeEditor(codec, codec.encode(c).value, home) == Some(pair)
  {
  }

  lemma CleanedIsNormal(path: string)
    requires ValidExclusionPath(path)
    ensures NormalPath(Clean(path)) && ValidExclusionPath(Clean(path))
  {
    CleanIsCanonical(path);
    CleanAvoids(path, '\0');
    assert Avoids(Clean(path), '\0');
    CleanNotLonger(path);
  }

  /** Fewer exclusions are never harder to validate. */
  lemma FewerExclusions(within: (string, string) -> bool, roots: seq<string>, more: seq<string>, fewer: seq<string>)
    requires Apart(within, roots, more) && forall e :: e in fewer ==> e in more
    ensures Apart(within, roots, fewer)
  {
    forall i | 0 <= i < |roots| ensures Clear(within, roots, fewer, i) {
      assert Clear(within, roots, more, i);
      forall j | 0 <= j < |fewer| ensures !within(roots[i], fewer[j]) {
        assert fewer[j] in more;
        var k :| 0 <= k < |more| && more[k] == fewer[j];
      }
    }
  }

  /** What an admissible pair looks like from the outside. */
  lemma AdmissibleFacts(pair: Pair, home: string)
    requires Admissible(pair, home)
    ensures pair.normal.version == VERSION && pair.normal.roots != [] && ScanOk(pair.normal.scan)
    ensures pair.normal == pair.raw.(roots := pair.normal.roots, excludes := pair.normal.excludes)
    ensures NormalizeAll(pair.raw.roots, home) == Some(pair.normal.roots)
    ensures NormalizeAll(pair.raw.excludes, home) == Some(pair.normal.excludes)
    ensures Apart(Containment(), pair.normal.roots, pair.normal.excludes)
    ensures AllBounded(pair.raw.roots) && AllBounded(pair.raw.excludes) && AllValid(pair.normal.roots)
            && AllValid(pair.normal.excludes)
    ensures |pair.raw.roots| <= PATH_LIMIT && |pair.raw.excludes| <= PATH_LIMIT
    ensures Normal(pair.normal.roots) && Normal(pair.normal.excludes)
  {
    NormalizeAllShape(pair.raw.roots, home);
    NormalizeAllNormal(pair.raw.roots, home);
    NormalizeAllNormal(pair.raw.excludes, home);
  }

  /** Replacing both exclusion lists in step keeps a pair admissible exactly when the roots stay clear. */
  lemma ReplacedAdmissible(pair: Pair, home: string, raws: seq<string>, normals: seq<string>)
    requires Admissible(pair, home) && |raws| <= PATH_LIMIT && AllBounded(raws) && AllValid(normals) && Normal(normals)
    requires NormalizeAll(raws, home) == Some(normals)
    ensures var next := Pair(pair.raw.(excludes := raws), pair.normal.(excludes := normals));
            var checked := Validated(next.normal, home);
            && (checked.Some? <==> Apart(Containment(), pair.normal.roots, normals))
            && (checked.Some? ==> checked.value == next.normal && Admissible(next, home))
  {
    AdmissibleFacts(pair, home);
    NormalStays(pair.normal.roots, home);
    NormalStays(normals, home);
    NormalizeAllShape(raws, home);
  }

  /** The two lists after an edit, if the editor gets that far. */
  ghost function NextPair(pair: Pair, add: bool, path: string): Pair
    requires pair.InStep()
  {
    var (raw, normal) := (pair.raw.excludes, pair.normal.excludes);
    Pair(pair.raw.(excludes := if add then raw + [path] else Dropped(raw, normal, path)),
         pair.normal.(excludes := if add then normal + [path] else Dropped(normal, normal, path)))
  }

  lemma DroppedBounds(pair: Pair, home: string, path: string)
    requires pair.InStep() && Admissible(pair, home)
    ensures var raws := Dropped(pair.raw.excludes, pair.normal.excludes, path);
            var normals := Dropped(pair.normal.excludes, pair.normal.excludes, path);
            && |raws| <= PATH_LIMIT && AllBounded(raws) && AllValid(normals) && Normal(normals)
            && NormalizeAll(raws, home) == Some(normals)
            && forall e :: e in normals <==> e in pair.normal.excludes && e != path
  {
    AdmissibleFacts(pair, home);
    var raw, normal := pair.raw.excludes, pair.normal.excludes;
    DroppedLockstep(Normalizer(home), raw, normal, path);
    DroppedSubset(raw, normal, path);
    DroppedSubset(normal, normal, path);
    forall e ensures e in Dropped(normal, normal, path) <==> e in normal && e != path {
      DroppedMembers(normal, path, e);
    }
  }

  /** Removal never fails validation: only the codec and the size bound can stop it. */
  lemma RemovalAlwaysValid(codec: Codec, pair: Pair, home: string, path: string)
    requires pair.InStep() && Admissible(pair, home) && path in pair.normal.excludes
    ensures Admissible(NextPair(pair, false, path), home)
    ensures Edited(codec, pair, home, false, path) ==
            Encoded(codec, NextPair(pair, false, path).raw, Some(NextPair(pair, false, path).normal))
  {
    AdmissibleFacts(pair, home);
    DroppedBounds(pair, home, path);
    var next := NextPair(pair, false, path);
    FewerExclusions(Containment(), pair.normal.roots, pair.normal.excludes, next.normal.excludes);
    ReplacedAdmissible(pair, home, next.raw.excludes, next.normal.excludes);
  }

  /** No root lies in the exclusion. */
  predicate NoneInside(roots: seq<string>, path: string) {
    forall i :: 0 <= i < |roots| ==> !Within(roots[i], path)
  }

  lemma OneMoreExclusion(roots: seq<string>, excludes: seq<string>, path: string)
    requires Apart(Containment(), roots, excludes)
    ensures Apart(Containment(), roots, excludes + [path]) <==> NoneInside(roots, path)
  {
    forall i | 0 <= i < |roots|
      ensures Clear(Containment(), roots, excludes + [path], i) <==> !Within(roots[i], path)
    {
      ClearOneMore(Containment(), roots, excludes, path, i);
      assert Clear(Containment(), roots, excludes, i);
    }
  }

  lemma ClearOneMore(within: (string, string) -> bool, roots: seq<string>, excludes: seq<string>, path: string, i: nat)
    requires i < |roots|
    ensures Clear(within, roots, excludes + [path], i) <==> Clear(within, roots, excludes, i) && !within(roots[i], path)
  {
    var more := excludes + [path];
    assert more[|excludes|] == path && forall j :: 0 <= j < |excludes| ==> more[j] == excludes[j];
  }

  /** An addition goes through exactly when there is room, no root lies in the new exclusion, and
      the codec and the size bound allow it. */
  lemma AdditionExact(codec: Codec, pair: Pair, home: string, path: string)
    requires pair.InStep() && Admissible(pair, home) && path !in pair.normal.excludes
    requires NormalPath(path) && ValidExclusionPath(path)
    ensures var next := NextPair(pair, true, path);
            var clear := |pair.normal.excludes| < PATH_LIMIT && NoneInside(pair.normal.roots, path);
            && (clear ==> Admissible(next, home))
            && Edited(codec, pair, home, true, path) ==
                 Encoded(codec, next.raw, if clear then Some(next.normal) else None)
  {
    AdmissibleFacts(pair, home);
    var next := NextPair(pair, true, path);
    NormalPathStays(path, home);
    MapAllAppend(Normalizer(home), pair.raw.excludes, pair.normal.excludes, path, path);
    OneMoreExclusion(pair.normal.roots, pair.normal.excludes, path);
    if |pair.normal.excludes| < PATH_LIMIT {
      ReplacedAdmissible(pair, home, next.raw.excludes, next.normal.excludes);
    }
  }

  /** Decoding the candidate passes the same validation and bounds, yields exactly the reported
      list, and leaves roots and budgets as they were. */
  lemma CandidateRedecodes(codec: Codec, data: Bytes, home: string, action: string, path: string)
    requires RoundTrips(codec) && Edit(codec, data, home, action, path).Candidate?
    ensures var r := Edit(codec, data, home, action, path);
            var before := DecodeEditor(codec, data, home);
            before.Some? && DecodeEditor(codec, r.bytes, home) ==
                Some(NextPair(before.value, action == "add", Clean(path)))
            && NextPair(before.value, action == "add", Clean(path)).normal.excludes == r.list
  {
    var pair := DecodeEditor(codec, data, home).value;
    var add, cleaned := action == "add", Clean(path);
    CleanedIsNormal(path);
    if add {
      AdditionExact(codec, pair, home, cleaned);
    } else {
      RemovalAlwaysValid(codec, pair, home, cleaned);
    }
    Decodes(codec, NextPair(pair, add, cleaned).raw, home, NextPair(pair, add, cleaned));
  }

  /** Adding the same path again, however it is spelled, is reported as not needed. */
  lemma AddIsIdempotent(codec: Codec, data: Bytes, home: string, path: string, again: string)
    requires RoundTrips(codec) && Edit(codec, data, home, "add", path).Candidate?
    requires ValidExclusionPath(again) && Clean(again) == Clean(path)
    ensures var r := Edit(codec, data, home, "add", path);
            Edit(codec, r.bytes, home, "add", again) == NotNeeded(r.list)
  {
    CandidateRedecodes(codec, data, home, "add", path);
  }

  /** Removing drops every literal spelling of the path, keeps the others in order, and a second
      removal is not needed. */
  lemma RemoveDropsEverySpelling(codec: Codec, data: Bytes, home: string, path: string, e: string)
    requires RoundTrips(codec) && Edit(codec, data, home, "remove", path).Candidate?
    ensures var r := Edit(codec, data, home, "remove", path);
            var before := DecodeEditor(codec, data, home).value;
            && (e in r.list <==> e in before.normal.excludes && e != Clean(path))
            && DecodeEditor(codec, r.bytes, home).Some?
            && DecodeEditor(codec, r.bytes, home).value.raw.excludes ==
                 Dropped(before.raw.excludes, before.normal.excludes, Clean(path))
            && Edit(codec, r.bytes, home, "remove", path) == NotNeeded(r.list)
  {
    var before := DecodeEditor(codec, data, home).value;
    CandidateRedecodes(codec, data, home, "remove", path);
    DroppedBounds(before, home, Clean(path));
  }

  /** Removing a path right after adding it, when it was absent, restores both lists. */
  lemma RemoveUndoesAdd(codec: Codec, data: Bytes, home: string, path: string)
    requires RoundTrips(codec) && Edit(codec, data, home, "add", path).Candidate?
    ensures var r := Edit(codec, data, home, "add", path);
            var before := DecodeEditor(codec, data, home).value;
            Edit(codec, r.bytes, home, "remove", path) == Encoded(codec, before.raw, Some(before.normal))
  {
    var before := DecodeEditor(codec, data, home).value;
    var after := NextPair(before, true, Clean(path));
    CandidateRedecodes(codec, data, home, "add", path);
    RemoveFrom(codec, Edit(codec, data, home, "add", path).bytes, home, path, after);
    AddThenDrop(before, Clean(path));
  }

  lemma RemoveFrom(codec: Codec, data: Bytes, home: string, path: string, pair: Pair)
    requires DecodeEditor(codec, data, home) == Some(pair) && ValidExclusionPath(path)
             && Clean(path) in pair.normal.excludes
    ensures Edit(codec, data, home, "remove", path) ==
            Encoded(codec, NextPair(pair, false, Clean(path)).raw, Some(NextPair(pair, false, Clean(path)).normal))
  {
    RemovalAlwaysValid(codec, pair, home, Clean(path));
  }

  lemma AddThenDrop(pair: Pair, path: string)
    requires pair.InStep() && path !in pair.normal.excludes
    ensures NextPair(NextPair(pair, true, path), false, path) == pair
  {
    DroppedAppended(pair.raw.excludes, pair.normal.excludes, path, path);
    DroppedAppended(pair.normal.excludes, pair.normal.excludes, path, path);
  }

  lemma DroppedAppended<T, K>(xs: seq<T>, keys: seq<K>, x: T, key: K)
    requires |xs| == |keys| && key !in keys
    ensures Dropped(xs + [x], keys + [key], key) == xs
  {
    DroppedNext(xs, keys, key, x, key);
    DroppedAbsent(xs, keys, key);
  }
}
