/**
 The presence oracle of patch.go: what a request's merge patch document says about a dotted path.
 It is asked of the original document, before the merge fills in what was omitted.
 */
module PatchDocument {
  import opened Json
  import opened Text
  import opened Wrappers

  /** `fields` is None for the zero PatchDocument. */
  datatype PatchDocument = PatchDocument(fields: Option<Members>) {

    predicate Valid() {
      fields.Some?
    }

    /** The value at a dotted path. A path whose first segment is empty is never present. */
    function Value(path: string): Option<Json> {
      var segments := Split(path, '.');
      if segments[0] == "" || fields.None? then None else At(Object(fields.value), segments)
    }

    predicate Has(path: string) {
      Value(path).Some?
    }

    predicate IsNull(path: string) {
      Value(path) == Some(Null)
    }

    predicate IsEmptyArray(path: string) {
      Value(path) == Some(Array([]))
    }

    /** `PatchDocument.value`: walks the segments, opening one nested object at a time. */
    method Find(path: string) returns (found: Option<Json>)
      ensures found == Value(path)
    {
      var segments := Split(path, '.');
      if segments[0] == "" || fields.None? {
        return None;
      }
      var current := fields.value;
      for index := 0 to |segments|
        invariant index < |segments|
        invariant At(Object(fields.value), segments) == At(Object(current), segments[index..])
      {
        assert segments[index..][0] == segments[index] && segments[index..][1..] == segments[index + 1..];
        if segments[index] !in current {
          return None;
        }
        var value := current[segments[index]];
        if index == |segments| - 1 {
          return Some(value);
        }
        if !value.Object? {
          return None;
        }
        current := value.members;
      }
      return None;
    }
  }

  /** `NewPatchDocument`: `body` is the parsed body, None if there is none or it is not JSON. */
  function NewPatchDocument(body: Option<Json>): Option<PatchDocument> {
    if body.Some? && body.value.Object? then Some(PatchDocument(Some(body.value.members))) else None
  }

  /** The oracle and the merge agree, for every target object, document and path: present values
      are what the merge puts there, null removes, and an absent path keeps the target's value
      unless a present prefix replaced the subtree. */
  lemma OracleAgreesWithMerge(target: Members, document: PatchDocument, path: string)
    requires document.Valid() && Split(path, '.')[0] != ""
    ensures var segments := Split(path, '.');
            var merged := At(MergePatch(Object(target), Object(document.fields.value)), segments);
            && (document.IsNull(path) ==> merged == None)
            && (document.Has(path) && !document.IsNull(path) ==>
                  merged == Some(MergePatch(AtOrNull(Object(target), segments), document.Value(path).value)))
            && (document.Has(path) && !document.IsNull(path) && !document.Value(path).value.Object? ==>
                  merged == document.Value(path))
            && (!document.Has(path) ==>
                  var prefix := segments[..PresentPrefix(Object(document.fields.value), segments)];
                  merged == if At(Object(document.fields.value), prefix).value.Object?
                            then At(Object(target), segments) else None)
  {
    var segments := Split(path, '.');
    var d := Object(document.fields.value);
    match At(d, segments) {
      case None => MergeAbsent(Object(target), d, segments);
      case Some(Null) => MergeNull(Object(target), d, segments);
      case Some(_) => MergePresent(Object(target), d, segments);
    }
  }

  /** The condition on the first segment is exact: the oracle reports what the document holds at
      a path unless the first segment is empty and the document has a value there. */
  lemma OracleIsExact(document: PatchDocument, path: string)
    requires document.Valid()
    ensures var held := At(Object(document.fields.value), Split(path, '.'));
            document.Value(path) == held <==> Split(path, '.')[0] != "" || held.None?
  {
  }

  /** An empty key is the witness: the merge sets it, the oracle denies it. */
  lemma EmptyKeyIsNotPresent()
    ensures var document := PatchDocument(Some(map["" := Bool(true)]));
            !document.Has("")
              && At(MergePatch(Object(map[]), Object(document.fields.value)), Split("", '.')) == Some(Bool(true))
  {
  }

  /** Presence is prefix-closed, and only an object has anything present below it. */
  lemma {:induction false} PresentPrefixes(j: Json, path: seq<string>, more: seq<string>)
    requires At(j, path + more).Some?
    ensures At(j, path).Some?
    ensures more != [] ==> At(j, path).value.Object?
  {
    if path == [] {
      assert path + more == more;
    } else {
      assert (path + more)[1..] == path[1..] + more;
      PresentPrefixes(j.members[path[0]], path[1..], more);
    }
  }
}
