/** JSON values, paths into objects, and JSON Merge Patch (section 2 of RFC 7396). */
module Json {
  import opened Wrappers

  datatype Json =
    | Null
    | Bool(b: bool)
    | Number(n: int)
    | String(s: string)
    | Array(items: seq<Json>)
    | Object(members: map<string, Json>)

  type Members = map<string, Json>

  /** The value at a path of object keys. */
  function At(j: Json, path: seq<string>): Option<Json> {
    if path == [] then Some(j)
    else if j.Object? && path[0] in j.members then At(j.members[path[0]], path[1..])
    else None
  }

  function AtOrNull(j: Json, path: seq<string>): Json {
    match At(j, path)
    case Some(v) => v
    case None => Null
  }

  /** `MergePatch(target, patch)` of RFC 7396, section 2. */
  function MergePatch(target: Json, patch: Json): Json
    decreases patch
  {
    if !patch.Object? then patch
    else
      var base := if target.Object? then target.members else map[];
      Object(map k | k in base.Keys + patch.members.Keys && !(k in patch.members && patch.members[k].Null?) ::
        if k in patch.members then MergePatch(if k in base then base[k] else Null, patch.members[k]) else base[k])
  }

  /** A present value that is not null is merged into what the target holds at its path. */
  lemma {:induction false} MergePresent(t: Json, d: Json, path: seq<string>)
    requires At(d, path).Some? && At(d, path).value != Null
    ensures At(MergePatch(t, d), path) == Some(MergePatch(AtOrNull(t, path), At(d, path).value))
    decreases path
  {
    if path != [] {
      var k := path[0];
      if |path| == 1 { assert path[1..] == []; }
      MergePresent(if t.Object? && k in t.members then t.members[k] else Null, d.members[k], path[1..]);
    }
  }

  /** A present null removes its path. */
  lemma {:induction false} MergeNull(t: Json, d: Json, path: seq<string>)
    requires path != [] && At(d, path) == Some(Null)
    ensures At(MergePatch(t, d), path) == None
    decreases path
  {
    var k := path[0];
    if |path| == 1 {
      assert path[1..] == [];
    } else {
      MergeNull(if t.Object? && k in t.members then t.members[k] else Null, d.members[k], path[1..]);
    }
  }

  /** The length of the longest prefix of a path that is present. */
  function PresentPrefix(d: Json, path: seq<string>): (n: nat)
    ensures n <= |path| && At(d, path[..n]).Some?
    ensures forall m :: n < m <= |path| ==> At(d, path[..m]).None?
  {
    if path == [] || !d.Object? || path[0] !in d.members then
      assert forall m :: 0 < m <= |path| ==> path[..m][0] == path[0];
      0
    else
      var n := PresentPrefix(d.members[path[0]], path[1..]);
      assert forall m :: 0 < m <= |path| ==> path[..m][0] == path[0] && path[..m][1..] == path[1..][..m - 1];
      n + 1
  }

  /** A path that is not present keeps the target's value below an object, and has none below
      anything else, which replaces the whole subtree. */
  lemma {:induction false} MergeAbsent(t: Json, d: Json, path: seq<string>)
    requires At(d, path).None?
    ensures At(MergePatch(t, d), path) ==
      if At(d, path[..PresentPrefix(d, path)]).value.Object? then At(t, path) else None
    decreases path
  {
    if d.Object? && path[0] in d.members {
      var k := path[0];
      var n := PresentPrefix(d, path);
      assert path[..n][1..] == path[1..][..n - 1];
      if d.members[k].Null? {
        assert n == 1 && path[1..][..0] == [];
      } else {
        MergeAbsent(if t.Object? && k in t.members then t.members[k] else Null, d.members[k], path[1..]);
      }
    }
  }

  /** Merging the same patch again changes nothing. */
  lemma {:induction false} MergeIdempotent(t: Json, d: Json)
    ensures MergePatch(MergePatch(t, d), d) == MergePatch(t, d)
    decreases d
  {
    if d.Object? {
      var once := MergePatch(t, d).members;
      var base := if t.Object? then t.members else map[];
      forall k | k in d.members && !d.members[k].Null?
        ensures MergePatch(once[k], d.members[k]) == once[k]
      {
        MergeIdempotent(if k in base then base[k] else Null, d.members[k]);
      }
      assert MergePatch(Object(once), d).members == once;
    }
  }
}
