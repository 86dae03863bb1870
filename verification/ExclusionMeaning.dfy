/** What the exclusion editor accepts and what it makes of each request, bound by bound. */
module ExclusionMeaning {
  import opened Basics
  import opened Paths
  import opened Config
  import opened Exclusions

  ghost predicate Small(ps: seq<string>) {
    forall i :: 0 <= i < |ps| ==> ByteLen(ps[i]) <= 4096
  }

  ghost predicate Plain(ps: seq<string>) {
    forall i :: 0 <= i < |ps| ==> '\0' !in ps[i]
  }

  lemma BoundedAre(ps: seq<string>)
    ensures AllBounded(ps) <==> Small(ps) && Plain(ps)
  {
    if AllBounded(ps) {
      forall i | 0 <= i < |ps| ensures ByteLen(ps[i]) <= 4096 && '\0' !in ps[i] {
        assert ps[i] in ps;
      }
    }
    if Small(ps) && Plain(ps) {
      forall p | p in ps ensures Exclusions.Bounded(p) {
        var i :| 0 <= i < |ps| && ps[i] == p;
      }
    }
  }

  /** Normalized paths are absolute and hold no NUL, so only their size can be wrong. */
  lemma ValidAre(ps: seq<string>)
    requires Normal(ps)
    ensures AllValid(ps) <==> Small(ps)
  {
    if AllValid(ps) {
      forall i | 0 <= i < |ps| ensures ByteLen(ps[i]) <= 4096 {
        assert ps[i] in ps;
      }
    }
    if Small(ps) {
      forall p | p in ps ensures ValidExclusionPath(p) {
        assert NormalPath(p);
        var i :| 0 <= i < |ps| && ps[i] == p;
      }
    }
  }

  /** A configuration is taken up exactly if it has at most one mebibyte, decodes, has at most 128 paths in
      each list, every path at most 4096 bytes and no NUL, and is valid, with normalized paths of at most
      4096 bytes again. */
  lemma DecodedExactly(codec: Codec, data: Bytes, home: string, pair: Pair)
    ensures DecodeEditor(codec, data, home) == Some(pair) <==>
            && |data| <= 1024 * 1024 && codec.decode(data) == Some(pair.raw)
            && |pair.raw.roots| <= 128 && |pair.raw.excludes| <= 128
            && Small(pair.raw.roots) && Plain(pair.raw.roots) && Small(pair.raw.excludes) && Plain(pair.raw.excludes)
            && Validated(pair.raw, home) == Some(pair.normal)
            && Small(pair.normal.roots) && Small(pair.normal.excludes)
  {
    BoundedAre(pair.raw.roots);
    BoundedAre(pair.raw.excludes);
    if Validated(pair.raw, home) == Some(pair.normal) {
      NormalizeAllNormal(pair.raw.roots, home);
      NormalizeAllNormal(pair.raw.excludes, home);
      ValidAre(pair.normal.roots);
      ValidAre(pair.normal.excludes);
    }
  }

  /** The positions whose key is another one, in order. */
  ghost predicate Others<K>(keys: seq<K>, key: K, rows: seq<nat>) {
    && (forall k, l :: 0 <= k < l < |rows| ==> rows[k] < rows[l])
    && forall i: nat :: i in rows <==> i < |keys| && keys[i] != key
  }

  /** The elements in these rows. */
  ghost predicate Left<T>(xs: seq<T>, rows: seq<nat>, left: seq<T>) {
    |left| == |rows| && forall k :: 0 <= k < |rows| ==> rows[k] < |xs| && left[k] == xs[rows[k]]
  }

  /** What is left of two lists when the positions with a key are dropped from both. */
  lemma {:induction false} DroppedExactly<T, K>(xs: seq<T>, keys: seq<K>, key: K) returns (rows: seq<nat>)
    requires |xs| == |keys|
    ensures Others(keys, key, rows)
    ensures Left(xs, rows, Dropped(xs, keys, key)) && Left(keys, rows, Dropped(keys, keys, key))
  {
    rows := [];
    if xs != [] {
      var n := |xs| - 1;
      rows := DroppedExactly(xs[..n], keys[..n], key);
      OneMore(keys, key, rows, n);
      LeftMore(xs, rows, Dropped(xs[..n], keys[..n], key), n);
      LeftMore(keys, rows, Dropped(keys[..n], keys[..n], key), n);
      rows := if keys[n] == key then rows else rows + [n];
    }
  }

  lemma LeftMore<T>(xs: seq<T>, rows: seq<nat>, left: seq<T>, n: nat)
    requires n == |xs| - 1 && Left(xs[..n], rows, left)
    ensures Left(xs, rows, left + []) && Left(xs, rows + [n], left + [xs[n]])
  {
  }

  lemma OneMore<K>(keys: seq<K>, key: K, rows: seq<nat>, n: nat)
    requires n == |keys| - 1 && Others(keys[..n], key, rows)
    ensures forall k :: 0 <= k < |rows| ==> rows[k] < n
    ensures Others(keys, key, if keys[n] == key then rows else rows + [n])
  {
    forall k | 0 <= k < |rows| ensures rows[k] < n {
      assert rows[k] in rows;
    }
  }

  /** Requests that are refused outright. */
  lemma RefusedRequests(codec: Codec, data: Bytes, home: string, action: string, path: string)
    requires (action != "add" && action != "remove") || path == "" || path[0] != '/' || '\0' in path
             || ByteLen(path) > 4096 || DecodeEditor(codec, data, home).None?
    ensures Edit(codec, data, home, action, path) == Failed
  {
  }

  /** The bytes that the edited configuration is written as, if the codec and the bound of one mebibyte
      allow it. */
  ghost predicate Becomes(r: Outcome, written: Option<Bytes>, list: seq<string>) {
    if written.Some? && |written.value| <= 1024 * 1024 then r == Candidate(written.value, list) else r == Failed
  }

  /** The path is usable and the configuration decodes, so the edit is made. */
  lemma EditIsMade(codec: Codec, data: Bytes, home: string, action: string, path: string, pair: Pair)
    requires action == "add" || action == "remove"
    requires path != "" && path[0] == '/' && '\0' !in path && ByteLen(path) <= 4096
    requires DecodeEditor(codec, data, home) == Some(pair)
    ensures Edit(codec, data, home, action, path) == Edited(codec, pair, home, action == "add", Clean(path))
    ensures NormalPath(Clean(path)) && ValidExclusionPath(Clean(path)) && Admissible(pair, home)
  {
    assert ValidExclusionPath(path);
    CleanedIsNormal(path);
  }

  /** Some root is the path or lies below it. */
  ghost predicate HasRoot(roots: seq<string>, path: string) {
    exists i :: 0 <= i < |roots| && Components(path) <= Components(roots[i])
  }

  lemma HasRootIs(roots: seq<string>, path: string)
    ensures HasRoot(roots, path) <==> !NoneInside(roots, Clean(path))
  {
    CleanIsCanonical(path);
    forall i | 0 <= i < |roots|
      ensures Within(roots[i], Clean(path)) <==> Components(path) <= Components(roots[i])
    {
      WithinIsPrefix(roots[i], Clean(path));
    }
  }

  /** An addition: not needed if the cleaned path is there; refused if there are 128 exclusions or a root is
      the same or lies below; and otherwise the path at the end of both lists. */
  lemma AddExactly(codec: Codec, data: Bytes, home: string, path: string, pair: Pair)
    requires path != "" && path[0] == '/' && '\0' !in path && ByteLen(path) <= 4096
    requires DecodeEditor(codec, data, home) == Some(pair)
    ensures var r, list := Edit(codec, data, home, "add", path), pair.normal.excludes;
            if Clean(path) in list then r == NotNeeded(list)
            else if |list| >= 128 || HasRoot(pair.normal.roots, path) then r == Failed
            else Becomes(r, codec.encode(pair.raw.(excludes := pair.raw.excludes + [Clean(path)])),
                         list + [Clean(path)])
  {
    EditIsMade(codec, data, home, "add", path, pair);
    HasRootIs(pair.normal.roots, path);
    if Clean(path) !in pair.normal.excludes {
      AdditionExact(codec, pair, home, Clean(path));
    }
  }

  /** A removal: not needed if the cleaned path is not there; otherwise the positions that normalize to it
      leave both lists. */
  lemma RemoveExactly(codec: Codec, data: Bytes, home: string, path: string, pair: Pair)
    returns (rows: seq<nat>, left: seq<string>, leftRaw: seq<string>)
    requires path != "" && path[0] == '/' && '\0' !in path && ByteLen(path) <= 4096
    requires DecodeEditor(codec, data, home) == Some(pair)
    ensures Others(pair.normal.excludes, Clean(path), rows)
    ensures Left(pair.normal.excludes, rows, left) && Left(pair.raw.excludes, rows, leftRaw)
    ensures var r, list := Edit(codec, data, home, "remove", path), pair.normal.excludes;
            if Clean(path) !in list then r == NotNeeded(list)
            else Becomes(r, codec.encode(pair.raw.(excludes := leftRaw)), left)
  {
    var raw, list := pair.raw.excludes, pair.normal.excludes;
    rows := DroppedExactly(raw, list, Clean(path));
    left, leftRaw := Dropped(list, list, Clean(path)), Dropped(raw, list, Clean(path));
    EditIsMade(codec, data, home, "remove", path, pair);
    if Clean(path) in list {
      RemovalAlwaysValid(codec, pair, home, Clean(path));
    }
  }
}
