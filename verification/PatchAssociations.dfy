/**
 The association configuration of patch.go: which JSON path stands for which relation, and which
 relations a request names. Go maps are visited in an arbitrary order.
 */
module PatchAssociations {
  import opened Json
  import opened PatchDocument
  import opened Text
  import opened Wrappers
  import PatchInput

  // ----- JSON paths of relations -------------------------------------------------------------

  /** The type of an update input field: a struct type, one wrapped in pointers, slices or
      arrays, or something without fields. */
  datatype PathType = Wrapped(elem: PathType) | StructType(id: nat) | OtherType

  /** What `FieldByName` finds for a Go field name, promoted fields included. */
  datatype PathField = PathField(name: string, tag: PatchInput.Tag, typ: PathType)

  datatype InputTypes = InputTypes(fields: map<nat, map<string, PathField>>, lower: char -> char) {
    /** `jsonFieldName`. */
    function JsonName(f: PathField): Option<string> {
      match f.tag
      case Excluded => None
      case Key(key) => Some(key)
      case Untagged => Some(if f.name == "" then "" else [lower(f.name[0])] + f.name[1..])
    }

    /** `patchJSONSegment`: the JSON name of a field and the struct type below it. */
    function Segment(t: PathType, segment: string): Option<(string, PathType)> {
      if t.StructType? && t.id in fields && segment in fields[t.id] then
        var f := fields[t.id][segment];
        var name :- JsonName(f);
        Some((name, Unwrap(f.typ)))
      else None
    }

    /** The JSON names along a relation path, or the first segment without one. */
    function Derive(t: PathType, segments: seq<string>): (names: Result<seq<string>, string>)
      ensures names.Ok? ==> |names.value| == |segments|
      decreases segments
    {
      if segments == [] then Ok([])
      else
        match Segment(t, segments[0])
        case None => Err(segments[0])
        case Some((name, below)) => Prepend([name], Derive(below, segments[1..]))
    }

    ghost predicate DotFree() {
      forall id, name | id in fields && name in fields[id] ::
        JsonName(fields[id][name]).Some? ==> Free(JsonName(fields[id][name]).value, '.')
    }
  }

  /** `patchNestedType`, and `patchType` for the root. */
  function Unwrap(t: PathType): PathType {
    match t
    case Wrapped(elem) => Unwrap(elem)
    case _ => t
  }

  /** The JSON path derived for a relation path. */
  function JsonPath(types: InputTypes, root: PathType, relationPath: string): Option<string> {
    match types.Derive(Unwrap(root), Split(relationPath, '.'))
    case Ok(names) => Some(Join(names, '.'))
    case Err(_) => None
  }

  /** `patchJSONPath`. */
  method PatchJSONPath(types: InputTypes, root: PathType, relationPath: string) returns (path: Option<string>)
    ensures path == JsonPath(types, root, relationPath)
    ensures forall names :: path == Some(names) <==> Spells(types, root, relationPath, names)
  {
    hide Spells, Unwrap;
    forall names ensures JsonPath(types, root, relationPath) == Some(names) <==>
      Spells(types, root, relationPath, names)
    {
      PathIsExact(types, root, relationPath, names);
    }
    var segments := Split(relationPath, '.');
    var result: seq<string>, t := [], Unwrap(root);
    hide InputTypes.Segment;
    assert segments[0..] == segments;
    PrependTwice([], [], types.Derive(t, segments));
    for i := 0 to |segments|
      invariant types.Derive(Unwrap(root), segments) == Prepend(result, types.Derive(t, segments[i..]))
    {
      assert segments[i..][0] == segments[i] && segments[i..][1..] == segments[i + 1..];
      var found := types.Segment(t, segments[i]);
      if found.None? {
        return None;
      }
      PrependTwice(result, [found.value.0], types.Derive(found.value.1, segments[i + 1..]));
      result, t := result + [found.value.0], found.value.1;
    }
    assert result + [] == result;
    return Some(Join(result, '.'));
  }

  lemma {:induction false} DerivePrefix(types: InputTypes, t: PathType, a: seq<string>, b: seq<string>)
    requires types.Derive(t, a + b).Ok?
    ensures types.Derive(t, a).Ok? && types.Derive(t, a).value == types.Derive(t, a + b).value[..|a|]
    decreases a
  {
    if a != [] {
      assert (a + b)[0] == a[0] && (a + b)[1..] == a[1..] + b;
      DerivePrefix(types, types.Segment(t, a[0]).value.1, a[1..], b);
    }
  }

  lemma {:induction false} DeriveDotFree(types: InputTypes, t: PathType, segments: seq<string>)
    requires types.DotFree() && types.Derive(t, segments).Ok?
    ensures AllFree(types.Derive(t, segments).value, '.')
    decreases segments
  {
    if segments != [] {
      DeriveDotFree(types, types.Segment(t, segments[0]).value.1, segments[1..]);
    }
  }

  /** The name a field goes by in JSON: its key, or its own name with the first letter lowered. */
  predicate NamedInJson(types: InputTypes, f: PathField, name: string) {
    match f.tag
    case Excluded => false
    case Key(key) => name == key
    case Untagged =>
      && |name| == |f.name|
      && (f.name != "" ==> name[0] == types.lower(f.name[0]) && name[1..] == f.name[1..])
  }

  /** The struct type has this field, under this name in JSON, and the type below it. */
  ghost predicate HasField(types: InputTypes, t: PathType, segment: string, name: string, below: PathType) {
    && t.StructType? && t.id in types.fields && segment in types.fields[t.id]
    && var f := types.fields[t.id][segment];
    && NamedInJson(types, f, name) && below == Unwrap(f.typ)
  }

  /** Each segment names a field of the struct type that the field before it holds, directly or behind
      pointers, slices and arrays. */
  ghost predicate Along(types: InputTypes, t: PathType, segments: seq<string>, levels: seq<PathType>,
                        names: seq<string>)
  {
    && |levels| == |segments| + 1 && |names| == |segments| && levels[0] == t
    && forall k :: 0 <= k < |segments| ==> HasField(types, levels[k], segments[k], names[k], levels[k + 1])
  }

  lemma SegmentExact(types: InputTypes, t: PathType, segment: string, name: string, below: PathType)
    ensures types.Segment(t, segment) == Some((name, below)) <==> HasField(types, t, segment, name, below)
  {
    if t.StructType? && t.id in types.fields && segment in types.fields[t.id] {
      var f := types.fields[t.id][segment];
      if f.tag.Untagged? && f.name != "" && name != "" {
        assert name == [name[0]] + name[1..];
      }
    }
  }

  lemma AlongStarts(types: InputTypes, t: PathType, segments: seq<string>, levels: seq<PathType>, names: seq<string>)
    requires Along(types, t, segments, levels, names)
    ensures |levels| == |segments| + 1 && |names| == |segments| && levels[0] == t
  {
  }

  lemma AlongFirst(types: InputTypes, t: PathType, segments: seq<string>, levels: seq<PathType>, names: seq<string>)
    requires segments != [] && |levels| == |segments| + 1 && |names| == |segments|
    ensures Along(types, t, segments, levels, names) <==>
      && levels[0] == t && HasField(types, t, segments[0], names[0], levels[1])
      && Along(types, levels[1], segments[1..], levels[1..], names[1..])
  {
    hide HasField;
    if Along(types, levels[1], segments[1..], levels[1..], names[1..]) {
      forall k | 1 <= k < |segments| ensures HasField(types, levels[k], segments[k], names[k], levels[k + 1]) {
        var j := k - 1;
        assert HasField(types, levels[1..][j], segments[1..][j], names[1..][j], levels[1..][j + 1]);
      }
    }
  }

  lemma {:induction false} DeriveExact(types: InputTypes, t: PathType, segments: seq<string>, names: seq<string>)
    ensures types.Derive(t, segments) == Ok(names) <==> exists levels :: Along(types, t, segments, levels, names)
    decreases segments
  {
    if segments == [] {
      if names == [] {
        assert Along(types, t, segments, [t], names);
      }
    } else {
      hide InputTypes.Segment, HasField, Along;
      if types.Derive(t, segments) == Ok(names) {
        var (name, below) := types.Segment(t, segments[0]).value;
        var rest := types.Derive(below, segments[1..]).value;
        DeriveExact(types, below, segments[1..], rest);
        SegmentExact(types, t, segments[0], name, below);
        var levels :| Along(types, below, segments[1..], levels, rest);
        assert ([t] + levels)[1..] == levels && names[1..] == rest;
        AlongStarts(types, below, segments[1..], levels, rest);
        AlongFirst(types, t, segments, [t] + levels, names);
      }
      if levels :| Along(types, t, segments, levels, names) {
        AlongStarts(types, t, segments, levels, names);
        AlongFirst(types, t, segments, levels, names);
        SegmentExact(types, t, segments[0], names[0], levels[1]);
        DeriveExact(types, levels[1], segments[1..], names[1..]);
        assert [names[0]] + names[1..] == names;
      }
    }
  }

  /** The segments lead from struct type to struct type, and the path joins the names they go by. */
  ghost predicate Spells(types: InputTypes, root: PathType, relationPath: string, path: string) {
    exists levels, names ::
      Along(types, Unwrap(root), Split(relationPath, '.'), levels, names) && path == Join(names, '.')
  }

  /** A relation path has a JSON path exactly if its segments spell one. */
  lemma {:induction false} PathIsExact(types: InputTypes, root: PathType, relationPath: string, path: string)
    ensures JsonPath(types, root, relationPath) == Some(path) <==> Spells(types, root, relationPath, path)
  {
    hide Split, Join, Unwrap, InputTypes.Derive, Along;
    var t, segments := Unwrap(root), Split(relationPath, '.');
    var derived := types.Derive(t, segments);
    if JsonPath(types, root, relationPath) == Some(path) {
      DeriveExact(types, t, segments, derived.value);
    }
    if Spells(types, root, relationPath, path) {
      var levels, names :| Along(types, t, segments, levels, names) && path == Join(names, '.');
      DeriveExact(types, t, segments, names);
    }
  }

  // ----- where the derived path points -------------------------------------------------------

  /** The table lists the fields that JSON sees of an input struct, promoted ones included. */
  ghost predicate Describes(types: InputTypes, id: nat, fields: seq<PatchInput.Field>) {
    && id in types.fields
    && forall path :: PatchInput.OnPath(fields, path) ==>
         var f := PatchInput.FieldOn(fields, path);
         f.name in types.fields[id] && types.fields[id][f.name].name == f.name && types.fields[id][f.name].tag == f.tag
  }

  /** The path derived for a relation whose field has a JSON key is where the field is marshalled to,
      exactly if no embedded struct on the way to the field has a key of its own. */
  lemma DerivedPathLocates(types: InputTypes, id: nat, ts: PatchInput.Types, fields: seq<PatchInput.Field>,
                           path: seq<nat>, values: seq<PatchInput.Value>)
    requires PatchInput.OnPath(fields, path) && PatchInput.Alone(fields, path) && Describes(types, id, fields)
    requires |values| == |fields| && PatchInput.ValueOn(fields, path, values).Some?
    requires PatchInput.FieldOn(fields, path).tag.Key?
    ensures var f := PatchInput.FieldOn(fields, path);
            var derived := types.Derive(StructType(id), [f.name]);
            var marshalled := Object(PatchInput.EncodeFields(ts, fields, values));
            && derived.Ok?
            && (derived.value == PatchInput.Location(fields, path) <==> PatchInput.NoKeyedEmbedding(fields, path))
            && (PatchInput.NoKeyedEmbedding(fields, path) ==>
                  At(marshalled, derived.value) ==
                  Some(PatchInput.Encode(ts, ts.TypeOf(f.typ), PatchInput.ValueOn(fields, path, values).value)))
  {
    hide PatchInput.Encode, PatchInput.EncodeFields, PatchInput.Alone;
    var f := PatchInput.FieldOn(fields, path);
    assert [f.name][1..] == [];
    assert types.Derive(StructType(id), [f.name]) == Ok([f.tag.key]) by {
      assert types.Segment(StructType(id), f.name).value.0 == f.tag.key;
      assert [f.tag.key] + [] == [f.tag.key];
    }
    PatchInput.LocatedAtOwnKey(fields, path);
    PatchInput.EncodedAtLocation(ts, fields, path, values);
  }

  /** A field promoted from an embedded struct with a key is not where its derived path points. */
  lemma KeyedEmbeddingMislocates(ts: PatchInput.Types, value: PatchInput.Value)
    ensures var items := PatchInput.Plain("Items", PatchInput.Key("items"), true, 0);
            var fields := [PatchInput.Embedded("Meta", PatchInput.Key("meta"), true, false, [items])];
            var marshalled := Object(PatchInput.EncodeFields(ts, fields, [PatchInput.StructValue([value])]));
            && PatchInput.OnPath(fields, [0, 0]) && PatchInput.FieldOn(fields, [0, 0]) == items
            && At(marshalled, ["items"]).None?
            && At(marshalled, ["meta", "items"]) == Some(PatchInput.Encode(ts, ts.TypeOf(0), value))
  {
    var items := PatchInput.Plain("Items", PatchInput.Key("items"), true, 0);
    var meta := PatchInput.Embedded("Meta", PatchInput.Key("meta"), true, false, [items]);
    assert [0, 0][1..] == [0];
    assert PatchInput.OnPath([items], [0]);
    PatchInput.EncodeOne(ts, items, value);
    PatchInput.EncodeOne(ts, meta, PatchInput.StructValue([value]));
    PatchInput.EmbeddedEncodes(ts, meta, PatchInput.StructValue([value]), [value]);
    assert ["meta", "items"][1..] == ["items"] && ["items"][1..] == [];
    hide PatchInput.Encode, PatchInput.EncodeFields;
    var inner := Object(PatchInput.EncodeFields(ts, [items], [value]));
    assert At(inner.members["items"], []) == Some(PatchInput.Encode(ts, ts.TypeOf(0), value));
    assert At(inner, ["items"]) == Some(PatchInput.Encode(ts, ts.TypeOf(0), value));
  }

  // ----- association fields ------------------------------------------------------------------

  datatype AssociationError = NotSynced(relation: string) | NoInputField(relation: string) | SameJsonPath(path: string)

  ghost predicate Overridden(overrides: map<string, string>, relation: string) {
    exists key :: key in overrides && overrides[key] == relation
  }

  /** Every synced relation without an override has a JSON path, and no two relations claim the
      same one. */
  ghost predicate Derivable(types: InputTypes, root: PathType, syncPaths: seq<string>, overrides: map<string, string>) {
    && (forall r :: r in syncPaths && !Overridden(overrides, r) ==>
          JsonPath(types, root, r).Some? && JsonPath(types, root, r).value !in overrides)
    && (forall r, s | r in syncPaths && s in syncPaths && !Overridden(overrides, r) && !Overridden(overrides, s) ::
          r != s ==> JsonPath(types, root, r) != JsonPath(types, root, s))
  }

  /** The configuration is usable: overrides name synced relations, and the rest is derivable. */
  ghost predicate Usable(types: InputTypes, root: PathType, syncPaths: seq<string>, overrides: map<string, string>) {
    && (forall key :: key in overrides ==> overrides[key] in syncPaths)
    && Derivable(types, root, syncPaths, overrides)
  }

  /** `key` stands for `relation`: by an override, or derived if the relation has no override. */
  ghost predicate StandsFor(types: InputTypes, root: PathType, syncPaths: seq<string>, overrides: map<string, string>,
                            key: string, relation: string) {
    || (key in overrides && overrides[key] == relation)
    || (relation in syncPaths && !Overridden(overrides, relation) && JsonPath(types, root, relation) == Some(key))
  }

  ghost predicate Represents(types: InputTypes, root: PathType, syncPaths: seq<string>, overrides: map<string, string>,
                             fields: map<string, string>) {
    forall key, relation ::
      (key in fields && fields[key] == relation) <==> StandsFor(types, root, syncPaths, overrides, key, relation)
  }

  /** A relation that already has a key adds nothing. */
  lemma AddSeen(types: InputTypes, root: PathType, syncPaths: seq<string>, overrides: map<string, string>,
                fields: map<string, string>, relation: string)
    requires Derivable(types, root, syncPaths, overrides) && Represents(types, root, syncPaths, overrides, fields)
    requires relation in fields.Values
    ensures Derivable(types, root, syncPaths + [relation], overrides)
    ensures Represents(types, root, syncPaths + [relation], overrides, fields)
  {
    var key :| key in fields && fields[key] == relation;
    assert StandsFor(types, root, syncPaths, overrides, key, relation);
    assert Overridden(overrides, relation) || relation in syncPaths;
    forall k, r
      ensures StandsFor(types, root, syncPaths + [relation], overrides, k, r) <==>
        StandsFor(types, root, syncPaths, overrides, k, r)
    {
    }
  }

  lemma NotSeen(types: InputTypes, root: PathType, syncPaths: seq<string>, overrides: map<string, string>,
                fields: map<string, string>, relation: string)
    requires Represents(types, root, syncPaths, overrides, fields) && relation !in fields.Values
    ensures !Overridden(overrides, relation)
    ensures JsonPath(types, root, relation).Some? ==> relation !in syncPaths
  {
    if Overridden(overrides, relation) {
      var key :| key in overrides && overrides[key] == relation;
      assert StandsFor(types, root, syncPaths, overrides, key, relation);
    } else if JsonPath(types, root, relation).Some? {
      var key := JsonPath(types, root, relation).value;
      assert relation in syncPaths ==> StandsFor(types, root, syncPaths, overrides, key, relation);
    }
  }

  /** A relation without a key gets its derived one, unless that is taken. */
  lemma AddDerived(types: InputTypes, root: PathType, syncPaths: seq<string>, overrides: map<string, string>,
                   fields: map<string, string>, relation: string, key: string)
    requires Derivable(types, root, syncPaths, overrides) && Represents(types, root, syncPaths, overrides, fields)
    requires relation !in fields.Values && JsonPath(types, root, relation) == Some(key)
    ensures key in fields ==> !Derivable(types, root, syncPaths + [relation], overrides)
    ensures key !in fields ==>
      && Derivable(types, root, syncPaths + [relation], overrides)
      && Represents(types, root, syncPaths + [relation], overrides, fields[key := relation])
  {
    NotSeen(types, root, syncPaths, overrides, fields, relation);
    var more := syncPaths + [relation];
    if key in fields {
      var other := fields[key];
      assert StandsFor(types, root, syncPaths, overrides, key, other);
      assert relation in more && (other in syncPaths ==> other in more);
    } else {
      if key in overrides {
        assert StandsFor(types, root, syncPaths, overrides, key, overrides[key]);
      }
      forall s | s in syncPaths && !Overridden(overrides, s) ensures JsonPath(types, root, s) != Some(key) {
        assert JsonPath(types, root, s) == Some(key) ==> StandsFor(types, root, syncPaths, overrides, key, s);
      }
      assert Derivable(types, root, more, overrides);
      forall k, r
        ensures (k in fields[key := relation] && fields[key := relation][k] == r) <==>
          StandsFor(types, root, more, overrides, k, r)
      {
        assert k in fields && fields[k] == r <==> StandsFor(types, root, syncPaths, overrides, k, r);
      }
    }
  }

  lemma DerivablePrefix(types: InputTypes, root: PathType, syncPaths: seq<string>, n: nat,
                        overrides: map<string, string>)
    requires n <= |syncPaths| && Derivable(types, root, syncPaths, overrides)
    ensures Derivable(types, root, syncPaths[..n], overrides)
  {
  }

  /** `buildPatchAssociationFields`. The outcome does not depend on the order in which the
      overrides are visited: success and the resulting map are functions of the configuration. */
  method BuildPatchAssociationFields(types: InputTypes, root: PathType, syncPaths: seq<string>,
                                     overrides: map<string, string>)
    returns (result: Result<map<string, string>, AssociationError>)
    ensures result.Ok? <==> Usable(types, root, syncPaths, overrides)
    ensures result.Ok? ==> Represents(types, root, syncPaths, overrides, result.value)
  {
    hide JsonPath;
    var fields: map<string, string> := map[];
    var rest := overrides.Keys;
    while rest != {}
      invariant rest <= overrides.Keys && fields.Keys == overrides.Keys - rest
      invariant forall key :: key in fields ==> fields[key] == overrides[key] && fields[key] in syncPaths
      decreases rest
    {
      var patchPath :| patchPath in rest;
      if overrides[patchPath] !in syncPaths {
        return Err(NotSynced(overrides[patchPath]));
      }
      fields := fields[patchPath := overrides[patchPath]];
      rest := rest - {patchPath};
    }
    assert fields == overrides;

    for i := 0 to |syncPaths|
      invariant Derivable(types, root, syncPaths[..i], overrides)
      invariant Represents(types, root, syncPaths[..i], overrides, fields)
    {
      var relation := syncPaths[i];
      assert syncPaths[..i + 1] == syncPaths[..i] + [relation];
      if relation in fields.Values {
        AddSeen(types, root, syncPaths[..i], overrides, fields, relation);
      } else {
        NotSeen(types, root, syncPaths[..i], overrides, fields, relation);
        var patchPath := PatchJSONPath(types, root, relation);
        if patchPath.None? {
          return Err(NoInputField(relation));
        }
        AddDerived(types, root, syncPaths[..i], overrides, fields, relation, patchPath.value);
        if patchPath.value in fields && fields[patchPath.value] != relation {
          if Derivable(types, root, syncPaths, overrides) {
            DerivablePrefix(types, root, syncPaths, i + 1, overrides);
          }
          return Err(SameJsonPath(patchPath.value));
        }
        fields := fields[patchPath.value := relation];
      }
    }
    assert syncPaths[..|syncPaths|] == syncPaths;
    return Ok(fields);
  }

  /** On success exactly the synced relations have a JSON path. */
  lemma FieldsCoverSyncPaths(types: InputTypes, root: PathType, syncPaths: seq<string>, overrides: map<string, string>,
                             fields: map<string, string>)
    requires Usable(types, root, syncPaths, overrides) && Represents(types, root, syncPaths, overrides, fields)
    ensures forall r :: r in fields.Values <==> r in syncPaths
  {
    hide JsonPath;
    forall r | r in fields.Values ensures r in syncPaths {
      var key :| key in fields && fields[key] == r;
      assert StandsFor(types, root, syncPaths, overrides, key, r);
    }
    forall r | r in syncPaths ensures r in fields.Values {
      var key :| if Overridden(overrides, r) then key in overrides && overrides[key] == r
                 else key == JsonPath(types, root, r).value;
      assert StandsFor(types, root, syncPaths, overrides, key, r);
    }
  }

  /** The map is determined by the configuration alone, and the sync paths only as a set. */
  lemma FieldsDetermined(types: InputTypes, root: PathType, syncPaths: seq<string>, permuted: seq<string>,
                         overrides: map<string, string>, a: map<string, string>, b: map<string, string>)
    requires forall r :: r in syncPaths <==> r in permuted
    requires Represents(types, root, syncPaths, overrides, a) && Represents(types, root, permuted, overrides, b)
    ensures a == b
  {
    hide JsonPath;
    forall key ensures key in a <==> key in b
      ensures key in a && key in b ==> a[key] == b[key]
    {
      if key in a {
        assert StandsFor(types, root, syncPaths, overrides, key, a[key]);
        assert StandsFor(types, root, permuted, overrides, key, a[key]);
      }
      if key in b {
        assert StandsFor(types, root, permuted, overrides, key, b[key]);
        assert StandsFor(types, root, syncPaths, overrides, key, b[key]);
      }
    }
  }

  /** `buildPatchAssociationTriggers`. */
  method BuildPatchAssociationTriggers(syncPaths: seq<string>, triggers: map<string, string>)
    returns (result: Result<map<string, string>, AssociationError>)
    ensures result.Ok? <==> forall key :: key in triggers ==> triggers[key] in syncPaths
    ensures result.Ok? ==> result.value == triggers
  {
    var copied: map<string, string> := map[];
    var rest := triggers.Keys;
    while rest != {}
      invariant rest <= triggers.Keys && copied.Keys == triggers.Keys - rest
      invariant forall key :: key in copied ==> copied[key] == triggers[key] && copied[key] in syncPaths
      decreases rest
    {
      var patchPath :| patchPath in rest;
      if triggers[patchPath] !in syncPaths {
        return Err(NotSynced(triggers[patchPath]));
      }
      copied := copied[patchPath := triggers[patchPath]];
      rest := rest - {patchPath};
    }
    assert copied == triggers;
    return Ok(copied);
  }

  // ----- selection ---------------------------------------------------------------------------

  /** The document has a value at some path that stands for the relation. */
  ghost predicate Requested(document: PatchDocument, fields: map<string, string>, relation: string) {
    exists key :: key in fields && fields[key] == relation && document.Has(key)
  }

  /** `selectPatchAssociationPaths`: exactly the requested relations, in sorted order. */
  method SelectPatchAssociationPaths(document: PatchDocument, fields: map<string, string>)
    returns (selected: seq<string>)
    ensures forall r :: r in selected <==> Requested(document, fields, r)
    ensures Sorted(selected)
  {
    selected := [];
    var rest := fields.Keys;
    while rest != {}
      invariant rest <= fields.Keys
      invariant forall r :: r in selected <==>
        exists key :: key in fields && key !in rest && fields[key] == r && document.Has(key)
      decreases rest
    {
      ghost var before := selected;
      var patchPath :| patchPath in rest;
      var value := document.Find(patchPath);
      if value.Some? {
        selected := selected + [fields[patchPath]];
      }
      forall r ensures r in selected <==>
        exists key :: key in fields && key !in rest - {patchPath} && fields[key] == r && document.Has(key)
      {
        if r in selected && r !in before {
          assert fields[patchPath] == r && document.Has(patchPath);
        }
      }
      rest := rest - {patchPath};
    }
    SortKeeps(selected);
    SortSorts(selected);
    selected := Sort(selected);
  }

  // ----- cleared relations form an antichain ---------------------------------------------------

  /** The document gives null or [] for a path that stands for the relation. */
  ghost predicate Cleared(document: PatchDocument, fields: map<string, string>, relation: string) {
    exists key :: key in fields && fields[key] == relation && (document.IsNull(key) || document.IsEmptyArray(key))
  }

  lemma KeyNames(types: InputTypes, root: PathType, relation: string, key: string) returns (names: seq<string>)
    requires types.DotFree() && JsonPath(types, root, relation) == Some(key)
    ensures types.Derive(Unwrap(root), Split(relation, '.')) == Ok(names) && Split(key, '.') == names
  {
    names := types.Derive(Unwrap(root), Split(relation, '.')).value;
    DeriveDotFree(types, Unwrap(root), Split(relation, '.'));
    SplitJoin(names, '.');
  }

  lemma ValueAt(document: PatchDocument, key: string)
    requires document.Has(key)
    ensures document.fields.Some? && At(Object(document.fields.value), Split(key, '.')) == document.Value(key)
  {
  }

  lemma DeriveMonotone(types: InputTypes, t: PathType, a: seq<string>, b: seq<string>)
    requires a < b && types.Derive(t, b).Ok?
    ensures types.Derive(t, a).Ok? && types.Derive(t, a).value < types.Derive(t, b).value
  {
    assert b == a + b[|a|..];
    DerivePrefix(types, t, a, b[|a|..]);
  }

  /** Nothing is present below a value that is not an object. */
  lemma LeafIsLast(document: PatchDocument, upper: string, lower: string)
    requires document.Has(upper) && document.Has(lower) && !document.Value(upper).value.Object?
    ensures !(Split(upper, '.') < Split(lower, '.'))
  {
    hide Split;
    ValueAt(document, upper);
    ValueAt(document, lower);
    var a, b := Split(upper, '.'), Split(lower, '.');
    if a < b {
      assert b == a + b[|a|..];
      PresentPrefixes(Object(document.fields.value), a, b[|a|..]);
    }
  }

  lemma ClearedKey(types: InputTypes, root: PathType, syncPaths: seq<string>, fields: map<string, string>,
                   document: PatchDocument, relation: string) returns (key: string, names: seq<string>)
    requires types.DotFree() && Represents(types, root, syncPaths, map[], fields) && Cleared(document, fields, relation)
    ensures document.Has(key) && !document.Value(key).value.Object?
    ensures types.Derive(Unwrap(root), Split(relation, '.')) == Ok(names) && Split(key, '.') == names
  {
    hide Split, JsonPath, InputTypes.Derive;
    key :| key in fields && fields[key] == relation && (document.IsNull(key) || document.IsEmptyArray(key));
    assert StandsFor(types, root, syncPaths, map[], key, relation);
    names := KeyNames(types, root, relation, key);
  }

  /** With derived JSON paths no cleared relation lies below another one. */
  lemma ClearedAntichain(types: InputTypes, root: PathType, syncPaths: seq<string>, fields: map<string, string>,
                         document: PatchDocument, upper: string, lower: string)
    requires types.DotFree() && Represents(types, root, syncPaths, map[], fields)
    requires Cleared(document, fields, upper) && Cleared(document, fields, lower)
    ensures !(Split(upper, '.') < Split(lower, '.'))
  {
    hide *;
    var upperKey, upperNames := ClearedKey(types, root, syncPaths, fields, document, upper);
    var lowerKey, lowerNames := ClearedKey(types, root, syncPaths, fields, document, lower);
    LeafIsLast(document, upperKey, lowerKey);
    if Split(upper, '.') < Split(lower, '.') {
      DeriveMonotone(types, Unwrap(root), Split(upper, '.'), Split(lower, '.'));
    }
  }
}
