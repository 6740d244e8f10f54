/**
 The write builder of a PATCH in builders.go: which associations are synchronized, and which
 automatic ones are omitted so that values the request did not name are not written back.
 */
module PatchWrite {
  import opened Text

  /** SQLR's update builder as a record of what was asked of it. */
  class QueryBuilderUpdate {
    var preloads: seq<string>
    var omitted: seq<string>
    var synced: seq<string>

    constructor ()
      ensures preloads == [] && omitted == [] && synced == []
    {
      preloads, omitted, synced := [], [], [];
    }

    method Preload(path: string)
      modifies this`preloads
      ensures preloads == old(preloads) + [path]
    {
      preloads := preloads + [path];
    }

    method OmitAssociation(path: string)
      modifies this`omitted
      ensures omitted == old(omitted) + [path]
    {
      omitted := omitted + [path];
    }

    method SyncAssociation(paths: seq<string>)
      modifies this`synced
      ensures synced == old(synced) + paths
    {
      synced := synced + paths;
    }
  }

  // ----- overlapping paths ---------------------------------------------------------------------

  /** The string test for two paths: equal, or one is the other followed by a dot and more. */
  predicate Overlap(a: string, b: string) {
    a == b || b + "." <= a || a + "." <= b
  }

  /** One path's segments are a prefix of the other's. */
  predicate Comparable(a: string, b: string) {
    Split(a, '.') <= Split(b, '.') || Split(b, '.') <= Split(a, '.')
  }

  lemma PrefixIsSegmentPrefix(a: string, b: string)
    ensures a == b || a + "." <= b <==> Split(a, '.') <= Split(b, '.')
  {
    if a + "." <= b {
      assert b == a + "." + b[|a| + 1..];
      SplitAppend(a, b[|a| + 1..], '.');
    }
    if Split(a, '.') <= Split(b, '.') {
      var rest := Split(b, '.')[|Split(a, '.')|..];
      JoinSplit(a, '.');
      JoinSplit(b, '.');
      assert Split(b, '.') == Split(a, '.') + rest;
      if rest != [] {
        JoinAppend(Split(a, '.'), rest, '.');
      } else {
        assert Split(a, '.') + rest == Split(a, '.');
      }
    }
  }

  /** The string test is exactly comparability of segment lists, for all paths. */
  lemma OverlapIsComparability(a: string, b: string)
    ensures Overlap(a, b) <==> Comparable(a, b)
  {
    PrefixIsSegmentPrefix(a, b);
    PrefixIsSegmentPrefix(b, a);
  }

  predicate Selected(path: string, selectedPaths: seq<string>) {
    exists i :: 0 <= i < |selectedPaths| && Comparable(path, selectedPaths[i])
  }

  /** `patchAssociationPathSelected`. */
  method PatchAssociationPathSelected(path: string, selectedPaths: seq<string>) returns (selected: bool)
    ensures selected <==> Selected(path, selectedPaths)
  {
    for i := 0 to |selectedPaths|
      invariant forall k :: 0 <= k < i ==> !Comparable(path, selectedPaths[k])
    {
      var selectedPath := selectedPaths[i];
      OverlapIsComparability(path, selectedPath);
      if path == selectedPath || selectedPath + "." <= path || path + "." <= selectedPath {
        return true;
      }
    }
    return false;
  }

  // ----- the builder ---------------------------------------------------------------------------

  /** The automatic paths that no selected path is comparable with, in order. */
  function Unselected(autoPaths: seq<string>, selected: seq<string>): seq<string> {
    if autoPaths == [] then []
    else (if Selected(autoPaths[0], selected) then [] else [autoPaths[0]]) + Unselected(autoPaths[1..], selected)
  }

  /** `builderPatchWriteFromTags`, applied to a builder. */
  method BuildPatchWrite(preloadPaths: seq<string>, syncPaths: seq<string>, autoSyncPaths: seq<string>,
                         qb: QueryBuilderUpdate)
    modifies qb
    ensures qb.preloads == old(qb.preloads) + preloadPaths
    ensures qb.omitted == old(qb.omitted) + Unselected(autoSyncPaths, syncPaths)
    ensures qb.synced == old(qb.synced) + syncPaths
  {
    if |preloadPaths| == 0 && |syncPaths| == 0 && |autoSyncPaths| == 0 {
      return;
    }
    for i := 0 to |preloadPaths|
      invariant qb.preloads == old(qb.preloads) + preloadPaths[..i]
      invariant qb.omitted == old(qb.omitted) && qb.synced == old(qb.synced)
    {
      qb.Preload(preloadPaths[i]);
    }
    assert preloadPaths[..|preloadPaths|] == preloadPaths;
    for i := 0 to |autoSyncPaths|
      invariant qb.preloads == old(qb.preloads) + preloadPaths && qb.synced == old(qb.synced)
      invariant old(qb.omitted) + Unselected(autoSyncPaths, syncPaths) ==
        qb.omitted + Unselected(autoSyncPaths[i..], syncPaths)
    {
      assert autoSyncPaths[i..][0] == autoSyncPaths[i] && autoSyncPaths[i..][1..] == autoSyncPaths[i + 1..];
      var selected := PatchAssociationPathSelected(autoSyncPaths[i], syncPaths);
      if selected {
        assert Unselected(autoSyncPaths[i..], syncPaths) == Unselected(autoSyncPaths[i + 1..], syncPaths);
      } else {
        qb.OmitAssociation(autoSyncPaths[i]);
      }
    }
    if |syncPaths| > 0 {
      qb.SyncAssociation(syncPaths);
    }
  }

  /** An automatic path is omitted exactly when no synchronized path is equal to it, above it or
      below it; so nothing omitted hides anything synchronized. */
  lemma {:induction false} OmittedExactly(autoPaths: seq<string>, selected: seq<string>, path: string)
    ensures path in Unselected(autoPaths, selected) <==>
      path in autoPaths && forall s :: s in selected ==> !Comparable(path, s)
  {
    if autoPaths != [] {
      OmittedExactly(autoPaths[1..], selected, path);
      assert autoPaths == [autoPaths[0]] + autoPaths[1..];
      assert Selected(path, selected) <==> exists s :: s in selected && Comparable(path, s) by {
        if exists s :: s in selected && Comparable(path, s) {
          var s :| s in selected && Comparable(path, s);
          var i :| 0 <= i < |selected| && selected[i] == s;
        }
      }
    }
  }
}
