/**
 `PatchDocument.MergeInto` of patch.go: marshal the complete input, merge the patch, reset the
 input in place, and unmarshal the merged document over it. Input types are described by their
 fields and JSON tags; a value tree stands for what the input points to.
 */
module PatchInput {
  import opened Json
  import opened PatchDocument
  import opened Wrappers

  type TypeId = nat

  /** A `json` struct tag: none, a key, or "-". */
  datatype Tag = Untagged | Key(key: string) | Excluded

  /** Fields refer to their types by name, so input types may be recursive. An embedded struct, or
      pointer to one, lists its fields in place. */
  datatype Field =
    | Plain(name: string, tag: Tag, exported: bool, typ: TypeId)
    | Embedded(name: string, tag: Tag, exported: bool, pointer: bool, fields: seq<Field>)

  datatype InputType =
    | BoolType
    | NumberType
    | StringType
    | Dynamic
    | Pointer(elem: InputType)
    | Slice(elemType: TypeId)
    | Map(valueType: TypeId)
    | Struct(fields: seq<Field>)

  datatype Value =
    | BoolValue(b: bool)
    | NumberValue(n: int)
    | StringValue(s: string)
    | DynamicValue(j: Json)
    | Nil
    | Ptr(to: Value)
    | SliceValue(elems: seq<Value>)
    | MapValue(entries: map<string, Value>)
    | StructValue(values: seq<Value>)

  /** The named types with their zero values; `lower` is `unicode.ToLower`. */
  datatype Types = Types(types: map<TypeId, InputType>, zeros: map<TypeId, Value>, lower: char -> char) {
    function TypeOf(id: TypeId): InputType {
      if id in types then types[id] else Dynamic
    }

    function ZeroOf(id: TypeId): Value {
      if id in zeros then zeros[id] else DynamicValue(Null)
    }

    /** `lowerCamel`. */
    function LowerCamel(name: string): string {
      if name == "" then "" else [lower(name[0])] + name[1..]
    }

    function Zero(t: InputType): Value {
      match t
      case BoolType => BoolValue(false)
      case NumberType => NumberValue(0)
      case StringType => StringValue("")
      case Dynamic => DynamicValue(Null)
      case Struct(fields) => StructValue(ZeroFields(fields))
      case _ => Nil
    }

    function ZeroFields(fields: seq<Field>): (zeros: seq<Value>)
      ensures |zeros| == |fields|
    {
      if fields == [] then [] else [ZeroField(fields[0])] + ZeroFields(fields[1..])
    }

    function ZeroField(f: Field): Value {
      match f
      case Plain(_, _, _, typ) => ZeroOf(typ)
      case Embedded(_, _, _, pointer, fields) => if pointer then Nil else StructValue(ZeroFields(fields))
    }

    /** The field values of a struct, or of a struct behind a pointer; a nil pointer to a struct
        reads as the zero struct. */
    function Open(pointer: bool, fields: seq<Field>, v: Value): (values: seq<Value>)
      ensures |values| == |fields|
    {
      match v
      case StructValue(values) => if !pointer && |values| == |fields| then values else ZeroFields(fields)
      case Ptr(StructValue(values)) => if pointer && |values| == |fields| then values else ZeroFields(fields)
      case _ => ZeroFields(fields)
    }
  }

  function Close(pointer: bool, values: seq<Value>): Value {
    if pointer then Ptr(StructValue(values)) else StructValue(values)
  }

  predicate Visible(f: Field) {
    f.exported && !f.tag.Excluded?
  }

  /** The JSON key of a plain field, as `encoding/json` uses it. */
  function JsonKey(f: Field): string {
    if f.tag.Key? then f.tag.key else f.name
  }

  // ----- encoding/json -----------------------------------------------------------------------

  function EmbeddedType(f: Field): InputType
    requires f.Embedded?
  {
    if f.pointer then Pointer(Struct(f.fields)) else Struct(f.fields)
  }

  /** Some key of the document addresses a visible field, directly or through embedding. */
  predicate Addressed(fields: seq<Field>, members: Members) {
    fields != [] && (AddressesField(fields[0], members) || Addressed(fields[1..], members))
  }

  predicate AddressesField(f: Field, members: Members) {
    match f
    case Plain(_, _, _, _) => Visible(f) && JsonKey(f) in members
    case Embedded(_, tag, _, _, fields) =>
      (tag.Untagged? && Addressed(fields, members)) || (tag.Key? && tag.key in members)
  }

  /** `json.Unmarshal` of `j` over the current value `v`; None is a type error. Absent keys leave
      a field alone, map entries are added, slice elements are decoded over existing ones. */
  function Decode(ts: Types, t: InputType, j: Json, v: Value): Option<Value>
    decreases j, t
  {
    match (t, j)
    case (Dynamic, _) => Some(DynamicValue(j))
    case (Pointer(_), Null) => Some(Nil)
    case (Slice(_), Null) => Some(Nil)
    case (Map(_), Null) => Some(Nil)
    case (_, Null) => Some(v)
    case (BoolType, Bool(b)) => Some(BoolValue(b))
    case (NumberType, Number(n)) => Some(NumberValue(n))
    case (StringType, String(s)) => Some(StringValue(s))
    case (Pointer(elem), _) =>
      var to :- Decode(ts, elem, j, if v.Ptr? then v.to else ts.Zero(elem));
      Some(Ptr(to))
    case (Slice(elemType), Array(items)) =>
      var elems :- DecodeItems(ts, elemType, items, if v.SliceValue? then v.elems else []);
      Some(SliceValue(elems))
    case (Map(valueType), Object(members)) =>
      if forall k | k in members :: Decode(ts, ts.TypeOf(valueType), members[k], ts.ZeroOf(valueType)).Some?
      then
        var decoded := map k | k in members :: Decode(ts, ts.TypeOf(valueType), members[k], ts.ZeroOf(valueType)).value;
        Some(MapValue((if v.MapValue? then v.entries else map[]) + decoded))
      else None
    case (Struct(fields), Object(_)) =>
      var values :- DecodeFields(ts, fields, j, ts.Open(false, fields, v));
      Some(StructValue(values))
    case _ => None
  }

  function DecodeItems(ts: Types, elemType: TypeId, items: seq<Json>, current: seq<Value>): Option<seq<Value>>
    decreases items
  {
    if items == [] then Some([])
    else
      var first :- Decode(ts, ts.TypeOf(elemType), items[0], if current != [] then current[0] else ts.ZeroOf(elemType));
      var rest :- DecodeItems(ts, elemType, items[1..], if current != [] then current[1..] else []);
      Some([first] + rest)
  }

  function DecodeFields(ts: Types, fields: seq<Field>, j: Json, values: seq<Value>): (decoded: Option<seq<Value>>)
    requires j.Object? && |values| == |fields|
    ensures decoded.Some? ==> |decoded.value| == |fields|
    decreases j, fields
  {
    if fields == [] then Some([])
    else
      var first :- DecodeField(ts, fields[0], j, values[0]);
      var rest :- DecodeFields(ts, fields[1..], j, values[1..]);
      Some([first] + rest)
  }

  function DecodeField(ts: Types, f: Field, j: Json, v: Value): Option<Value>
    requires j.Object?
    decreases j, f
  {
    match f
    case Plain(_, _, _, typ) =>
      if Visible(f) && JsonKey(f) in j.members then Decode(ts, ts.TypeOf(typ), j.members[JsonKey(f)], v) else Some(v)
    case Embedded(_, Excluded, _, _, _) => Some(v)
    case Embedded(_, Key(k), _, _, _) =>
      if k in j.members then Decode(ts, EmbeddedType(f), j.members[k], v) else Some(v)
    case Embedded(_, Untagged, _, pointer, fields) =>
      if pointer && !v.Ptr? && !Addressed(fields, j.members) then Some(v)
      else
        var values :- DecodeFields(ts, fields, j, ts.Open(pointer, fields, v));
        Some(Close(pointer, values))
  }

  /** What `json.Unmarshal` leaves, type errors or not: it passes over what does not fit and goes on. */
  function Filled(ts: Types, t: InputType, j: Json, v: Value): Value
    decreases j, t
  {
    match (t, j)
    case (Dynamic, _) => DynamicValue(j)
    case (Pointer(_), Null) => Nil
    case (Slice(_), Null) => Nil
    case (Map(_), Null) => Nil
    case (_, Null) => v
    case (BoolType, Bool(b)) => BoolValue(b)
    case (NumberType, Number(n)) => NumberValue(n)
    case (StringType, String(s)) => StringValue(s)
    case (Pointer(elem), _) => Ptr(Filled(ts, elem, j, if v.Ptr? then v.to else ts.Zero(elem)))
    case (Slice(elemType), Array(items)) =>
      SliceValue(FilledItems(ts, elemType, items, if v.SliceValue? then v.elems else []))
    case (Map(valueType), Object(members)) =>
      var filled := map k | k in members :: Filled(ts, ts.TypeOf(valueType), members[k], ts.ZeroOf(valueType));
      MapValue((if v.MapValue? then v.entries else map[]) + filled)
    case (Struct(fields), Object(_)) => StructValue(FilledFields(ts, fields, j, ts.Open(false, fields, v)))
    case _ => v
  }

  function FilledItems(ts: Types, elemType: TypeId, items: seq<Json>, current: seq<Value>): seq<Value>
    decreases items
  {
    if items == [] then []
    else
      [Filled(ts, ts.TypeOf(elemType), items[0], if current != [] then current[0] else ts.ZeroOf(elemType))] +
      FilledItems(ts, elemType, items[1..], if current != [] then current[1..] else [])
  }

  function FilledFields(ts: Types, fields: seq<Field>, j: Json, values: seq<Value>): (filled: seq<Value>)
    requires j.Object? && |values| == |fields|
    ensures |filled| == |fields|
    decreases j, fields
  {
    if fields == [] then []
    else [FilledField(ts, fields[0], j, values[0])] + FilledFields(ts, fields[1..], j, values[1..])
  }

  function FilledField(ts: Types, f: Field, j: Json, v: Value): Value
    requires j.Object?
    decreases j, f
  {
    match f
    case Plain(_, _, _, typ) =>
      if Visible(f) && JsonKey(f) in j.members then Filled(ts, ts.TypeOf(typ), j.members[JsonKey(f)], v) else v
    case Embedded(_, Excluded, _, _, _) => v
    case Embedded(_, Key(k), _, _, _) => if k in j.members then Filled(ts, EmbeddedType(f), j.members[k], v) else v
    case Embedded(_, Untagged, _, pointer, fields) =>
      if pointer && !v.Ptr? && !Addressed(fields, j.members) then v
      else Close(pointer, FilledFields(ts, fields, j, ts.Open(pointer, fields, v)))
  }

  /** Without a type error that is the decoded value. */
  lemma {:induction false} FilledIsDecoded(ts: Types, t: InputType, j: Json, v: Value)
    requires Decode(ts, t, j, v).Some?
    ensures Filled(ts, t, j, v) == Decode(ts, t, j, v).value
    decreases j, t, 1
  {
    hide DecodeFields, FilledFields, DecodeItems, FilledItems;
    match (t, j) {
      case (Pointer(elem), _) =>
        if !j.Null? {
          FilledIsDecoded(ts, elem, j, if v.Ptr? then v.to else ts.Zero(elem));
        }
      case (Slice(elemType), Array(items)) =>
        FilledItemsAreDecoded(ts, elemType, items, if v.SliceValue? then v.elems else []);
      case (Map(valueType), Object(members)) => FilledEntriesAreDecoded(ts, valueType, members, v);
      case (Struct(fields), Object(_)) => FilledFieldsAreDecoded(ts, fields, j, ts.Open(false, fields, v));
      case _ =>
    }
  }

  lemma {:induction false} FilledEntriesAreDecoded(ts: Types, valueType: TypeId, members: Members, v: Value)
    requires Decode(ts, Map(valueType), Object(members), v).Some?
    ensures Filled(ts, Map(valueType), Object(members), v) == Decode(ts, Map(valueType), Object(members), v).value
    decreases Object(members), Map(valueType), 0
  {
    var t, zero := ts.TypeOf(valueType), ts.ZeroOf(valueType);
    assert forall k :: k in members ==> Decode(ts, t, members[k], zero).Some?;
    var decoded := map k | k in members :: Decode(ts, t, members[k], zero).value;
    var filled := map k | k in members :: Filled(ts, t, members[k], zero);
    var entries: map<string, Value> := if v.MapValue? then v.entries else map[];
    assert Decode(ts, Map(valueType), Object(members), v) == Some(MapValue(entries + decoded));
    assert Filled(ts, Map(valueType), Object(members), v) == MapValue(entries + filled);
    hide Decode, Filled;
    forall k | k in members ensures filled[k] == decoded[k] {
      FilledIsDecoded(ts, t, members[k], zero);
    }
    assert filled == decoded;
  }

  lemma {:induction false} FilledItemsAreDecoded(ts: Types, elemType: TypeId, items: seq<Json>, current: seq<Value>)
    requires DecodeItems(ts, elemType, items, current).Some?
    ensures FilledItems(ts, elemType, items, current) == DecodeItems(ts, elemType, items, current).value
    decreases items
  {
    hide Decode, Filled;
    if items != [] {
      FilledIsDecoded(ts, ts.TypeOf(elemType), items[0], if current != [] then current[0] else ts.ZeroOf(elemType));
      FilledItemsAreDecoded(ts, elemType, items[1..], if current != [] then current[1..] else []);
    }
  }

  lemma {:induction false} FilledFieldsAreDecoded(ts: Types, fields: seq<Field>, j: Json, values: seq<Value>)
    requires j.Object? && |values| == |fields| && DecodeFields(ts, fields, j, values).Some?
    ensures FilledFields(ts, fields, j, values) == DecodeFields(ts, fields, j, values).value
    decreases j, fields
  {
    hide DecodeField, FilledField;
    if fields != [] {
      FilledFieldIsDecoded(ts, fields[0], j, values[0]);
      FilledFieldsAreDecoded(ts, fields[1..], j, values[1..]);
    }
  }

  lemma {:induction false} FilledFieldIsDecoded(ts: Types, f: Field, j: Json, v: Value)
    requires j.Object? && DecodeField(ts, f, j, v).Some?
    ensures FilledField(ts, f, j, v) == DecodeField(ts, f, j, v).value
    decreases j, f
  {
    hide Decode, Filled, DecodeFields, FilledFields, Addressed;
    match f {
      case Plain(_, _, _, typ) =>
        if Visible(f) && JsonKey(f) in j.members {
          FilledIsDecoded(ts, ts.TypeOf(typ), j.members[JsonKey(f)], v);
        }
      case Embedded(_, Key(k), _, _, _) =>
        if k in j.members {
          FilledIsDecoded(ts, EmbeddedType(f), j.members[k], v);
        }
      case Embedded(_, Untagged, _, pointer, fields) =>
        if !(pointer && !v.Ptr? && !Addressed(fields, j.members)) {
          FilledFieldsAreDecoded(ts, fields, j, ts.Open(pointer, fields, v));
        }
      case _ =>
    }
  }

  /** `json.Marshal`. */
  function Encode(ts: Types, t: InputType, v: Value): Json
    decreases v, t
  {
    match (t, v)
    case (BoolType, BoolValue(b)) => Bool(b)
    case (NumberType, NumberValue(n)) => Number(n)
    case (StringType, StringValue(s)) => String(s)
    case (Dynamic, DynamicValue(j)) => j
    case (Pointer(elem), Ptr(to)) => Encode(ts, elem, to)
    case (Slice(elemType), SliceValue(elems)) =>
      Array(seq(|elems|, i requires 0 <= i < |elems| => Encode(ts, ts.TypeOf(elemType), elems[i])))
    case (Map(valueType), MapValue(entries)) =>
      Object(map k | k in entries :: Encode(ts, ts.TypeOf(valueType), entries[k]))
    case (Struct(fields), StructValue(values)) =>
      if |values| == |fields| then Object(EncodeFields(ts, fields, values)) else Null
    case _ => Null
  }

  function EncodeFields(ts: Types, fields: seq<Field>, values: seq<Value>): Members
    requires |values| == |fields|
    decreases values, fields
  {
    if fields == [] then map[]
    else
      var first: Members :=
        match fields[0]
        case Plain(_, _, _, typ) =>
          if Visible(fields[0]) then map[JsonKey(fields[0]) := Encode(ts, ts.TypeOf(typ), values[0])] else map[]
        case Embedded(_, Excluded, _, _, _) => map[]
        case Embedded(_, Key(k), _, _, _) => map[k := Encode(ts, EmbeddedType(fields[0]), values[0])]
        case Embedded(_, Untagged, _, _, _) =>
          var promoted := Encode(ts, EmbeddedType(fields[0]), values[0]);
          if promoted.Object? then promoted.members else map[];
      EncodeFields(ts, fields[1..], values[1..]) + first
  }

  // ----- reset -------------------------------------------------------------------------------

  /** `resetPatchInput` on a struct's fields. An embedded struct whose JSON name is its own
      lower-camel name, tagged or not, is reset field by field; so it is when reached through a
      non-nil pointer. */
  function ResetFields(ts: Types, fields: seq<Field>, values: seq<Value>): (reset: seq<Value>)
    requires |values| == |fields|
    ensures |reset| == |fields|
    decreases fields
  {
    if fields == [] then [] else [ResetField(ts, fields[0], values[0])] + ResetFields(ts, fields[1..], values[1..])
  }

  function ResetField(ts: Types, f: Field, v: Value): Value
    decreases f
  {
    if !Visible(f) then v
    else if f.Embedded? && ResetsInside(ts, f) then
      if f.pointer && !v.Ptr? then v else Close(f.pointer, ResetFields(ts, f.fields, ts.Open(f.pointer, f.fields, v)))
    else ts.ZeroField(f)
  }

  /** The test that decides between resetting an embedded struct inside and zeroing it. */
  predicate ResetsInside(ts: Types, f: Field)
    requires f.Embedded?
  {
    f.tag.Untagged? || f.tag == Key(ts.LowerCamel(f.name))
  }

  function Reset(ts: Types, t: InputType, v: Value): Value {
    match (t, v)
    case (Pointer(elem), Ptr(to)) => Ptr(Reset(ts, elem, to))
    case (Map(_), MapValue(_)) => MapValue(map[])
    case (Struct(fields), _) => StructValue(ResetFields(ts, fields, ts.Open(false, fields, v)))
    case _ => v
  }

  /** The loop of `resetPatchInput` over a struct's fields, setting them one by one. */
  method ResetPatchFields(ts: Types, fields: seq<Field>, values: seq<Value>) returns (reset: seq<Value>)
    requires |values| == |fields|
    ensures reset == ResetFields(ts, fields, values)
    decreases fields
  {
    reset := values;
    for index := 0 to |fields|
      invariant |reset| == |fields|
      invariant reset[..index] == ResetFields(ts, fields, values)[..index]
      invariant reset[index..] == values[index..]
    {
      ResetFieldsAt(ts, fields, values, index);
      var f := fields[index];
      assert reset[index] == reset[index..][0] == values[index];
      if Visible(f) {
        if f.Embedded? && ResetsInside(ts, f) {
          if !f.pointer || reset[index].Ptr? {
            var inner := ResetPatchFields(ts, f.fields, ts.Open(f.pointer, f.fields, reset[index]));
            reset := reset[index := Close(f.pointer, inner)];
          }
        } else {
          reset := reset[index := ts.ZeroField(f)];
        }
      }
      assert reset[index + 1..] == values[index..][1..] == values[index + 1..];
    }
  }

  lemma {:induction false} ResetFieldsAt(ts: Types, fields: seq<Field>, values: seq<Value>, i: nat)
    requires |values| == |fields| && i < |fields|
    ensures ResetFields(ts, fields, values)[i] == ResetField(ts, fields[i], values[i])
  {
    if i > 0 {
      ResetFieldsAt(ts, fields[1..], values[1..], i - 1);
    }
  }

  /** `resetPatchInput`. */
  method ResetPatchInput(ts: Types, t: InputType, v: Value) returns (reset: Value)
    ensures reset == Reset(ts, t, v)
    decreases t
  {
    match (t, v) {
      case (Pointer(elem), Ptr(to)) =>
        var inner := ResetPatchInput(ts, elem, to);
        return Ptr(inner);
      case (Map(_), MapValue(_)) => return MapValue(map[]);
      case (Struct(fields), _) =>
        var values := ResetPatchFields(ts, fields, ts.Open(false, fields, v));
        return StructValue(values);
      case _ => return v;
    }
  }

  // ----- merge -------------------------------------------------------------------------------

  function Merged(ts: Types, t: InputType, v: Value, document: Members): Json {
    MergePatch(Encode(ts, t, v), Object(document))
  }

  /** The complete input a request is merged into; `value` is what the pointer points to. */
  class CompleteInput {
    const ts: Types
    const typ: InputType
    var value: Value

    constructor (ts: Types, typ: InputType, value: Value)
      ensures this.ts == ts && this.typ == typ && this.value == value
    {
      this.ts, this.typ, this.value := ts, typ, value;
    }

    /** `PatchDocument.MergeInto`. After a type error the input holds what could be filled in. */
    method MergeInto(document: PatchDocument) returns (ok: bool)
      modifies this
      ensures !document.Valid() ==> !ok && value == old(value)
      ensures document.Valid() ==>
        var merged := Merged(ts, typ, old(value), document.fields.value);
        var decoded := Decode(ts, typ, merged, Reset(ts, typ, old(value)));
        && (ok <==> decoded.Some?)
        && (ok ==> value == decoded.value)
        && value == Filled(ts, typ, merged, Reset(ts, typ, old(value)))
    {
      hide Decode, Filled;
      if !document.Valid() {
        return false;
      }
      var before := Encode(ts, typ, value);
      var after := MergePatch(before, Object(document.fields.value));
      value := ResetPatchInput(ts, typ, value);
      ok := Decode(ts, typ, after, value).Some?;
      if ok {
        FilledIsDecoded(ts, typ, after, value);
      }
      value := Filled(ts, typ, after, value);
    }
  }

  // ----- what the merged document decides ----------------------------------------------------

  /** Some field that JSON does not see, here or through embedding, is not zero. */
  predicate Hides(ts: Types, fields: seq<Field>, values: seq<Value>)
    requires |values| == |fields|
    decreases fields
  {
    fields != [] && (HidesOn(ts, fields[0], values[0]) || Hides(ts, fields[1..], values[1..]))
  }

  predicate HidesOn(ts: Types, f: Field, v: Value)
    decreases f
  {
    if !Visible(f) then v != ts.ZeroField(f) else f.Embedded? && Hides(ts, f.fields, ts.Open(f.pointer, f.fields, v))
  }

  /** `result` is `expected` in everything JSON sees, and `before` in every field it does not see,
      at the top level and through any embedding. An embedded pointer is set exactly if it is set in
      `expected`, or if what it points to in `before` has something to keep that JSON does not see. */
  ghost predicate Agrees(ts: Types, fields: seq<Field>, result: seq<Value>, expected: seq<Value>, before: seq<Value>)
    requires |result| == |expected| == |before| == |fields|
    decreases fields
  {
    fields == [] ||
    (AgreesOn(ts, fields[0], result[0], expected[0], before[0])
     && Agrees(ts, fields[1..], result[1..], expected[1..], before[1..]))
  }

  ghost predicate AgreesOn(ts: Types, f: Field, result: Value, expected: Value, before: Value)
    decreases f
  {
    if !Visible(f) then result == before
    else if f.Plain? then result == expected
    else
      && (f.pointer ==> (result.Ptr? <==> expected.Ptr? || HidesOn(ts, f, before)))
      && Agrees(ts, f.fields, ts.Open(f.pointer, f.fields, result), ts.Open(f.pointer, f.fields, expected),
                ts.Open(f.pointer, f.fields, before))
  }

  /** Every embedded struct type is exported, at every level. This suffices for what follows; it is
      not necessary, as an unexported one that JSON sees nothing of does no harm. */
  predicate EmbedsExported(fields: seq<Field>) {
    fields != [] ==>
      (fields[0].Embedded? ==> fields[0].exported && EmbedsExported(fields[0].fields)) && EmbedsExported(fields[1..])
  }

  /** The part of a document that an embedded struct is decoded from. */
  function Part(f: Field, members: Members): Members
    requires f.Embedded?
  {
    match f.tag
    case Untagged => members
    case Excluded => map[]
    case Key(key) => if key in members && members[key].Object? then members[key].members else map[]
  }

  /** Decoding sets a nil embedded pointer. */
  predicate Sets(f: Field, members: Members)
    requires f.Embedded?
  {
    match f.tag
    case Untagged => Addressed(f.fields, members)
    case Excluded => false
    case Key(key) => key in members && members[key].Object?
  }

  /** Decoding makes an embedded pointer nil. */
  predicate Nils(f: Field, members: Members)
    requires f.Embedded?
  {
    f.pointer && f.tag.Key? && f.tag.key in members && members[f.tag.key].Null?
  }

  /** What a merge gets wrong, told from the merged document and the input before. An embedded pointer
      that is reset from inside stays set although nothing in the document sets it and nothing in it is
      to be kept; and what JSON does not see is lost from an embedded struct that is zeroed because its
      key is not its own lower-camel name, or from one that the document makes nil. */
  predicate Residue(ts: Types, fields: seq<Field>, members: Members, values: seq<Value>)
    requires |values| == |fields|
    decreases fields
  {
    fields != [] && (ResidueOn(ts, fields[0], members, values[0]) || Residue(ts, fields[1..], members, values[1..]))
  }

  predicate ResidueOn(ts: Types, f: Field, members: Members, v: Value)
    decreases f
  {
    f.Embedded? && Visible(f) &&
    var inner := ts.Open(f.pointer, f.fields, v);
    if !ResetsInside(ts, f) || Nils(f, members) then Hides(ts, f.fields, inner)
    else
      || (f.pointer && v.Ptr? && !Sets(f, members) && !Hides(ts, f.fields, inner))
      || Residue(ts, f.fields, Part(f, members), inner)
  }

  /** Embedded structs hold as many values as they have fields. */
  ghost predicate Shaped(fields: seq<Field>, values: seq<Value>)
    requires |values| == |fields|
    decreases fields
  {
    fields != [] ==> ShapedOn(fields[0], values[0]) && Shaped(fields[1..], values[1..])
  }

  ghost predicate ShapedOn(f: Field, v: Value)
    decreases f
  {
    f.Embedded? && f.tag.Untagged? && f.exported ==>
      if !f.pointer then v.StructValue? && |v.values| == |f.fields| && Shaped(f.fields, v.values)
      else v.Ptr? ==> v.to.StructValue? && |v.to.values| == |f.fields| && Shaped(f.fields, v.to.values)
  }

  lemma {:induction false} ZeroShaped(ts: Types, fields: seq<Field>)
    ensures Shaped(fields, ts.ZeroFields(fields))
    decreases fields
  {
    if fields != [] {
      if fields[0].Embedded? { ZeroShaped(ts, fields[0].fields); }
      ZeroShaped(ts, fields[1..]);
    }
  }

  lemma {:induction false} ResetShaped(ts: Types, fields: seq<Field>, values: seq<Value>)
    requires |values| == |fields| && EmbedsExported(fields)
    ensures Shaped(fields, ResetFields(ts, fields, values))
    decreases fields
  {
    if fields != [] {
      var f := fields[0];
      if f.Embedded? { ResetShaped(ts, f.fields, ts.Open(f.pointer, f.fields, values[0])); }
      ResetShaped(ts, fields[1..], values[1..]);
    }
  }

  /** Decoding a document that addresses no field changes nothing. */
  lemma {:induction false} UnaddressedDecode(ts: Types, fields: seq<Field>, members: Members, values: seq<Value>)
    requires |values| == |fields| && EmbedsExported(fields) && Shaped(fields, values) && !Addressed(fields, members)
    ensures DecodeFields(ts, fields, Object(members), values) == Some(values)
    decreases fields
  {
    if fields != [] {
      var f := fields[0];
      if f.Embedded? && f.tag.Untagged? && !(f.pointer && !values[0].Ptr?) {
        UnaddressedDecode(ts, f.fields, members, ts.Open(f.pointer, f.fields, values[0]));
      }
      UnaddressedDecode(ts, fields[1..], members, values[1..]);
      assert values == [values[0]] + values[1..];
    }
  }

  lemma {:induction false} EmptyUnaddressed(fields: seq<Field>)
    ensures !Addressed(fields, map[])
    decreases fields
  {
    if fields != [] {
      if fields[0].Embedded? { EmptyUnaddressed(fields[0].fields); }
      EmptyUnaddressed(fields[1..]);
    }
  }

  lemma {:induction false} ZeroHides(ts: Types, fields: seq<Field>)
    ensures !Hides(ts, fields, ts.ZeroFields(fields))
    decreases fields
  {
    if fields != [] {
      if fields[0].Embedded? { ZeroHides(ts, fields[0].fields); }
      ZeroHides(ts, fields[1..]);
    }
  }

  lemma {:induction false} ZeroResidue(ts: Types, fields: seq<Field>, members: Members)
    ensures !Residue(ts, fields, members, ts.ZeroFields(fields))
    decreases fields
  {
    if fields != [] {
      var f := fields[0];
      if f.Embedded? {
        ZeroHides(ts, f.fields);
        ZeroResidue(ts, f.fields, Part(f, members));
      }
      ZeroResidue(ts, fields[1..], members);
    }
  }

  lemma {:induction false} ZeroReset(ts: Types, fields: seq<Field>)
    ensures ResetFields(ts, fields, ts.ZeroFields(fields)) == ts.ZeroFields(fields)
    decreases fields
  {
    if fields != [] {
      if fields[0].Embedded? { ZeroReset(ts, fields[0].fields); }
      ZeroReset(ts, fields[1..]);
    }
  }

  /** Decoding over fields that hide nothing leaves nothing hidden. */
  lemma {:induction false} DecodeHides(ts: Types, fields: seq<Field>, j: Json, values: seq<Value>)
    requires j.Object? && |values| == |fields| && EmbedsExported(fields) && !Hides(ts, fields, values)
    requires DecodeFields(ts, fields, j, values).Some?
    ensures !Hides(ts, fields, DecodeFields(ts, fields, j, values).value)
    decreases fields, 0
  {
    if fields != [] {
      var f := fields[0];
      if f.Embedded? {
        DecodeHidesOn(ts, f, j, values[0]);
      }
      DecodeHides(ts, fields[1..], j, values[1..]);
    }
  }

  lemma {:induction false} DecodeHidesOn(ts: Types, f: Field, j: Json, v: Value)
    requires j.Object? && f.Embedded? && EmbedsExported([f]) && !HidesOn(ts, f, v) && DecodeField(ts, f, j, v).Some?
    ensures !HidesOn(ts, f, DecodeField(ts, f, j, v).value)
    decreases f, 1
  {
    hide Hides, DecodeFields, Addressed;
    var inner := ts.Open(f.pointer, f.fields, v);
    ZeroHides(ts, f.fields);
    if f.tag.Untagged? && !(f.pointer && !v.Ptr? && !Addressed(f.fields, j.members)) {
      DecodeHides(ts, f.fields, j, inner);
    } else if f.tag.Key? && f.tag.key in j.members {
      DecodeKeyed(ts, f, j.members[f.tag.key], v);
      if j.members[f.tag.key].Object? {
        DecodeHides(ts, f.fields, j.members[f.tag.key], inner);
      }
    }
  }

  /** A value that hides nothing agrees with itself exactly if there was nothing to keep. */
  lemma {:induction false} AgreesSame(ts: Types, fields: seq<Field>, expected: seq<Value>, before: seq<Value>)
    requires |expected| == |before| == |fields| && !Hides(ts, fields, expected)
    ensures Agrees(ts, fields, expected, expected, before) <==> !Hides(ts, fields, before)
    decreases fields
  {
    if fields != [] {
      var f := fields[0];
      if f.Embedded? && Visible(f) {
        AgreesSame(ts, f.fields, ts.Open(f.pointer, f.fields, expected[0]), ts.Open(f.pointer, f.fields, before[0]));
      }
      AgreesSame(ts, fields[1..], expected[1..], before[1..]);
    }
  }

  /** Decoding the merged document over the reset fields fails exactly when decoding it into a
      fresh value fails. Otherwise the result agrees with the fresh value on everything JSON sees
      and with the input before on everything else, exactly when there is no residue. */
  lemma {:induction false} ResetThenDecode(ts: Types, fields: seq<Field>, members: Members, before: seq<Value>)
    requires |before| == |fields| && EmbedsExported(fields)
    ensures var result := DecodeFields(ts, fields, Object(members), ResetFields(ts, fields, before));
            var expected := DecodeFields(ts, fields, Object(members), ts.ZeroFields(fields));
            && (result.Some? <==> expected.Some?)
            && (result.Some? ==>
                  (Agrees(ts, fields, result.value, expected.value, before) <==> !Residue(ts, fields, members, before)))
    decreases fields
  {
    if fields != [] {
      FieldAgrees(ts, fields[0], members, before[0]);
      ResetThenDecode(ts, fields[1..], members, before[1..]);
    }
  }

  lemma {:induction false} FieldAgrees(ts: Types, f: Field, members: Members, before: Value)
    requires EmbedsExported([f])
    ensures var result := DecodeField(ts, f, Object(members), ResetField(ts, f, before));
            var expected := DecodeField(ts, f, Object(members), ts.ZeroField(f));
            && (result.Some? <==> expected.Some?)
            && (result.Some? ==>
                  (AgreesOn(ts, f, result.value, expected.value, before) <==> !ResidueOn(ts, f, members, before)))
    decreases f
  {
    if f.Embedded? && Visible(f) {
      hide Hides, Residue, Agrees, DecodeFields, ResetFields;
      if !ResetsInside(ts, f) {
        FreshAgrees(ts, f, members, before);
      } else if f.tag.Untagged? {
        UntaggedAgrees(ts, f, members, before);
      } else {
        KeyedAgrees(ts, f, members, before);
      }
    }
  }

  /** A fresh value agrees with itself exactly if nothing was hidden before. */
  lemma FreshAgrees(ts: Types, f: Field, members: Members, before: Value)
    requires EmbedsExported([f]) && f.Embedded? && Visible(f)
    ensures var expected := DecodeField(ts, f, Object(members), ts.ZeroField(f));
            expected.Some? ==> (AgreesOn(ts, f, expected.value, expected.value, before) <==> !HidesOn(ts, f, before))
  {
    hide Hides, Agrees, DecodeFields;
    var expected := DecodeField(ts, f, Object(members), ts.ZeroField(f));
    if expected.Some? {
      ZeroHides(ts, f.fields);
      DecodeHidesOn(ts, f, Object(members), ts.ZeroField(f));
      AgreesSame(ts, f.fields, ts.Open(f.pointer, f.fields, expected.value), ts.Open(f.pointer, f.fields, before));
    }
  }

  lemma {:induction false} UntaggedAgrees(ts: Types, f: Field, members: Members, before: Value)
    requires EmbedsExported([f]) && f.Embedded? && Visible(f) && f.tag.Untagged?
    ensures var result := DecodeField(ts, f, Object(members), ResetField(ts, f, before));
            var expected := DecodeField(ts, f, Object(members), ts.ZeroField(f));
            && (result.Some? <==> expected.Some?)
            && (result.Some? ==>
                  (AgreesOn(ts, f, result.value, expected.value, before) <==> !ResidueOn(ts, f, members, before)))
    decreases f, 0
  {
    hide Residue, Agrees, DecodeFields, ResetFields, Addressed, Shaped, Hides;
    var inner := ts.Open(f.pointer, f.fields, before);
    ResetThenDecode(ts, f.fields, members, inner);
    ZeroShaped(ts, f.fields);
    ZeroReset(ts, f.fields);
    if !Addressed(f.fields, members) {
      UnaddressedDecode(ts, f.fields, members, ts.ZeroFields(f.fields));
    }
    if f.pointer && !before.Ptr? {
      ZeroResidue(ts, f.fields, members);
      ZeroHides(ts, f.fields);
      FreshAgrees(ts, f, members, before);
    }
  }

  /** Decoding a value into an embedded struct with a key of its own. */
  lemma DecodeKeyed(ts: Types, f: Field, j: Json, v: Value)
    requires f.Embedded?
    ensures j.Object? ==>
      var values := DecodeFields(ts, f.fields, j, ts.Open(f.pointer, f.fields, v));
      Decode(ts, EmbeddedType(f), j, v) == if values.Some? then Some(Close(f.pointer, values.value)) else None
    ensures !j.Object? && !j.Null? ==> Decode(ts, EmbeddedType(f), j, v) == None
    ensures j.Null? ==> Decode(ts, EmbeddedType(f), j, v) == Some(if f.pointer then Nil else v)
  {
  }

  /** The key is absent, or null where that leaves a struct alone: nothing is decoded. */
  lemma {:induction false} KeyAbsentAgrees(ts: Types, f: Field, before: Value)
    requires EmbedsExported([f]) && f.Embedded? && Visible(f) && f.tag.Key? && ResetsInside(ts, f)
    ensures AgreesOn(ts, f, ResetField(ts, f, before), ts.ZeroField(f), before) <==> !ResidueOn(ts, f, map[], before)
    decreases f, 0
  {
    var inner := ts.Open(f.pointer, f.fields, before);
    hide Residue, Agrees, Hides;
    ResetThenDecode(ts, f.fields, map[], inner);
    EmptyUnaddressed(f.fields);
    ZeroShaped(ts, f.fields);
    ResetShaped(ts, f.fields, inner);
    UnaddressedDecode(ts, f.fields, map[], ts.ZeroFields(f.fields));
    UnaddressedDecode(ts, f.fields, map[], ResetFields(ts, f.fields, inner));
    if f.pointer && !before.Ptr? {
      ZeroReset(ts, f.fields);
      ZeroResidue(ts, f.fields, map[]);
      ZeroHides(ts, f.fields);
    }
  }

  lemma {:induction false} KeyPresentAgrees(ts: Types, f: Field, members: Members, before: Value)
    requires EmbedsExported([f]) && f.Embedded? && Visible(f) && f.tag.Key? && ResetsInside(ts, f)
    requires f.tag.key in members && members[f.tag.key].Object?
    ensures var result := DecodeField(ts, f, Object(members), ResetField(ts, f, before));
            var expected := DecodeField(ts, f, Object(members), ts.ZeroField(f));
            && (result.Some? <==> expected.Some?)
            && (result.Some? ==>
                  (AgreesOn(ts, f, result.value, expected.value, before) <==>
                   !Residue(ts, f.fields, members[f.tag.key].members, ts.Open(f.pointer, f.fields, before))))
    decreases f, 0
  {
    hide Decode, Residue, Agrees, Hides;
    var inner := ts.Open(f.pointer, f.fields, before);
    ResetThenDecode(ts, f.fields, members[f.tag.key].members, inner);
    DecodeKeyed(ts, f, members[f.tag.key], ResetField(ts, f, before));
    DecodeKeyed(ts, f, members[f.tag.key], ts.ZeroField(f));
    ZeroReset(ts, f.fields);
  }

  lemma {:induction false} KeyedAgrees(ts: Types, f: Field, members: Members, before: Value)
    requires EmbedsExported([f]) && f.Embedded? && Visible(f) && f.tag.Key? && ResetsInside(ts, f)
    ensures var result := DecodeField(ts, f, Object(members), ResetField(ts, f, before));
            var expected := DecodeField(ts, f, Object(members), ts.ZeroField(f));
            && (result.Some? <==> expected.Some?)
            && (result.Some? ==>
                  (AgreesOn(ts, f, result.value, expected.value, before) <==> !ResidueOn(ts, f, members, before)))
    decreases f, 1
  {
    hide Residue, Agrees, DecodeFields, ResetFields, Hides;
    if f.tag.key in members && members[f.tag.key].Object? {
      KeyPresentAgrees(ts, f, members, before);
    } else if Nils(f, members) {
      FreshAgrees(ts, f, members, before);
    } else if f.tag.key in members && !members[f.tag.key].Null? {
      DecodeKeyed(ts, f, members[f.tag.key], ResetField(ts, f, before));
      DecodeKeyed(ts, f, members[f.tag.key], ts.ZeroField(f));
    } else {
      KeyAbsentAgrees(ts, f, before);
    }
  }

  // ----- the merge as a whole ----------------------------------------------------------------

  /** `MergeInto` on a struct refines decoding the merged document into a fresh struct, exactly
      when there is no residue. */
  lemma MergeRefinesFresh(ts: Types, fields: seq<Field>, before: seq<Value>, document: Members)
    requires |before| == |fields| && EmbedsExported(fields)
    ensures var merged := Merged(ts, Struct(fields), StructValue(before), document);
            var result := Decode(ts, Struct(fields), merged, Reset(ts, Struct(fields), StructValue(before)));
            var expected := Decode(ts, Struct(fields), merged, ts.Zero(Struct(fields)));
            && merged.Object?
            && (result.Some? <==> expected.Some?)
            && (result.Some? ==>
                  && result.value.StructValue? && |result.value.values| == |fields|
                  && expected.value.StructValue? && |expected.value.values| == |fields|
                  && (Agrees(ts, fields, result.value.values, expected.value.values, before) <==>
                      !Residue(ts, fields, merged.members, before)))
  {
    hide Agrees, Residue, Hides, Encode, ResetFields, DecodeFields;
    ResetThenDecode(ts, fields, Merged(ts, Struct(fields), StructValue(before), document).members, before);
  }

  /** On a map the result is the fresh value: no entry survives that the merge removed. */
  lemma MergeRefinesFreshMap(ts: Types, valueType: TypeId, before: map<string, Value>, document: Members)
    ensures var merged := Merged(ts, Map(valueType), MapValue(before), document);
            Decode(ts, Map(valueType), merged, Reset(ts, Map(valueType), MapValue(before))) ==
            Decode(ts, Map(valueType), merged, Nil)
  {
  }

  /** Residue is real: merging null into a set embedded pointer tagged with its own lower-camel
      name leaves the pointer set, where decoding into a fresh value leaves it nil. */
  lemma ResidueExists(ts: Types)
    requires ts.lower('P') == 'p'
    ensures var f := Embedded("P", Key("p"), true, true, []);
            var before := [Ptr(StructValue([]))];
            var merged := Merged(ts, Struct([f]), StructValue(before), map["p" := Null]);
            && Residue(ts, [f], merged.members, before)
            && Decode(ts, Struct([f]), merged, Reset(ts, Struct([f]), StructValue(before))) == Some(StructValue(before))
            && Decode(ts, Struct([f]), merged, ts.Zero(Struct([f]))) == Some(StructValue([Nil]))
  {
    var f := Embedded("P", Key("p"), true, true, []);
    var before := [Ptr(StructValue([]))];
    assert ts.LowerCamel("P") == "p";
    assert [f][1..] == [] && before[1..] == [];
    assert EncodeFields(ts, [f], before) == map["p" := Encode(ts, EmbeddedType(f), before[0])];
    var merged := Merged(ts, Struct([f]), StructValue(before), map["p" := Null]);
    assert merged.members == map[];
    assert ts.ZeroFields([f]) == [Nil];
    EmptyUnaddressed([f]);
    assert f.fields == [];
    ZeroShaped(ts, [f]);
    UnaddressedDecode(ts, [f], map[], before);
    UnaddressedDecode(ts, [f], map[], ts.ZeroFields([f]));
    assert ResetFields(ts, [f], before) == [ResetField(ts, f, Ptr(StructValue([])))];
  }

  lemma PlainShaped(f: Field, v: Value)
    requires f.Plain?
    ensures EmbedsExported([f]) && Shaped([f], [v])
  {
  }

  /** One number field, and what its values are marshalled to and decoded from. */
  function NumberField(key: string): Field {
    Plain("X", Key(key), true, 0)
  }

  ghost predicate Numbers(ts: Types) {
    ts.types == map[0 := NumberType] && ts.zeros == map[0 := NumberValue(0)]
  }

  lemma NumberFacts(ts: Types, key: string, n: int)
    requires Numbers(ts)
    ensures EncodeFields(ts, [NumberField(key)], [NumberValue(n)]) == map[key := Number(n)]
    ensures DecodeFields(ts, [NumberField(key)], Object(map[]), [NumberValue(n)]) == Some([NumberValue(n)])
    ensures ts.ZeroFields([NumberField(key)]) == [NumberValue(0)]
    ensures ResetFields(ts, [NumberField(key)], [NumberValue(n)]) == [NumberValue(0)]
    ensures !Addressed([NumberField(key)], map[]) && !Hides(ts, [NumberField(key)], [NumberValue(n)])
  {
    var x := NumberField(key);
    assert [x][1..] == [] && [NumberValue(n)][1..] == [];
    PlainShaped(x, NumberValue(n));
    EmptyUnaddressed([x]);
    UnaddressedDecode(ts, [x], map[], [NumberValue(n)]);
  }

  /** A struct is marshalled, reset and decoded field by field. */
  lemma StructSteps(ts: Types, fields: seq<Field>, before: seq<Value>, members: Members)
    requires |before| == |fields|
    ensures Encode(ts, Struct(fields), StructValue(before)) == Object(EncodeFields(ts, fields, before))
    ensures Reset(ts, Struct(fields), StructValue(before)) == StructValue(ResetFields(ts, fields, before))
    ensures ts.Zero(Struct(fields)) == StructValue(ts.ZeroFields(fields))
    ensures var decoded := DecodeFields(ts, fields, Object(members), before);
            Decode(ts, Struct(fields), Object(members), StructValue(before)) ==
            if decoded.Some? then Some(StructValue(decoded.value)) else None
  {
    hide EncodeFields, ResetFields, DecodeFields;
  }

  /** The second kind of residue: an untagged embedded pointer whose fields the document removes stays
      set, so it is marshalled as a zero where a fresh value has nothing. */
  lemma UntaggedResidueExists(ts: Types, n: int)
    requires Numbers(ts)
    ensures var f := Embedded("Base", Untagged, true, true, [NumberField("x")]);
            var before := [Ptr(StructValue([NumberValue(n)]))];
            var merged := Merged(ts, Struct([f]), StructValue(before), map["x" := Null]);
            var result := StructValue([Ptr(StructValue([NumberValue(0)]))]);
            && Residue(ts, [f], merged.members, before)
            && Decode(ts, Struct([f]), merged, Reset(ts, Struct([f]), StructValue(before))) == Some(result)
            && Decode(ts, Struct([f]), merged, ts.Zero(Struct([f]))) == Some(StructValue([Nil]))
            && Encode(ts, Struct([f]), result) == Object(map["x" := Number(0)])
            && Encode(ts, Struct([f]), StructValue([Nil])) == Object(map[])
  {
    var f := Embedded("Base", Untagged, true, true, [NumberField("x")]);
    var v := Ptr(StructValue([NumberValue(n)]));
    PointerFacts(ts, n);
    PointerFacts(ts, 0);
    NumberFacts(ts, "x", n);
    assert ResidueOn(ts, f, map[], v);
    var zero := Ptr(StructValue([NumberValue(0)]));
    StructSteps(ts, [f], [v], map[]);
    StructSteps(ts, [f], [zero], map[]);
    StructSteps(ts, [f], [Nil], map[]);
    hide EncodeFields, ResetFields, DecodeFields, Addressed, Residue, Encode, Decode, Reset, Types.Zero;
    assert Merged(ts, Struct([f]), StructValue([v]), map["x" := Null]).members == map[];
  }

  /** A struct with one untagged embedded pointer is marshalled and reset as what that points to. */
  lemma SingleEmbedded(ts: Types, f: Field, v: Value)
    requires f.Embedded? && f.tag.Untagged? && f.exported && f.pointer
    requires v == Nil || (v.Ptr? && v.to.StructValue? && |v.to.values| == |f.fields|)
    ensures EncodeFields(ts, [f], [v]) == if v == Nil then map[] else EncodeFields(ts, f.fields, v.to.values)
    ensures ResetFields(ts, [f], [v]) == if v == Nil then [Nil]
      else [Ptr(StructValue(ResetFields(ts, f.fields, v.to.values)))]
    ensures ts.ZeroFields([f]) == [Nil]
  {
    assert [f][1..] == [] && [v][1..] == [];
    assert EncodeFields(ts, [], []) == map[];
    if v.Ptr? {
      var inner := EncodeFields(ts, f.fields, v.to.values);
      assert Encode(ts, Struct(f.fields), v.to) == Object(inner);
      assert map[] + inner == inner;
    }
  }

  lemma DecodeSingle(ts: Types, f: Field, j: Json, v: Value)
    requires j.Object?
    ensures DecodeFields(ts, [f], j, [v]) ==
            var decoded := DecodeField(ts, f, j, v); if decoded.Some? then Some([decoded.value]) else None
  {
    hide DecodeField;
    assert [f][1..] == [] && [v][1..] == [];
    assert DecodeFields(ts, [], j, []) == Some([]);
    assert forall x: Value :: [x] + [] == [x];
  }

  /** How the pointer of the witnesses below is marshalled, reset, and decoded from nothing. */
  lemma PointerFacts(ts: Types, n: int)
    requires Numbers(ts)
    ensures var fields := [Embedded("Base", Untagged, true, true, [NumberField("x")])];
            var v, zero := Ptr(StructValue([NumberValue(n)])), Ptr(StructValue([NumberValue(0)]));
            && EncodeFields(ts, fields, [v]) == map["x" := Number(n)]
            && EncodeFields(ts, fields, [Nil]) == map[]
            && ResetFields(ts, fields, [v]) == [zero]
              && ResetFields(ts, fields, [Nil]) == [Nil] == ts.ZeroFields(fields)
            && DecodeFields(ts, fields, Object(map[]), [zero]) == Some([zero])
            && DecodeFields(ts, fields, Object(map[]), [Nil]) == Some([Nil])
  {
    var f := Embedded("Base", Untagged, true, true, [NumberField("x")]);
    var v, zero := Ptr(StructValue([NumberValue(n)])), Ptr(StructValue([NumberValue(0)]));
    NumberFacts(ts, "x", n);
    NumberFacts(ts, "x", 0);
    SingleEmbedded(ts, f, v);
    SingleEmbedded(ts, f, Nil);
    DecodeSingle(ts, f, Object(map[]), zero);
    DecodeSingle(ts, f, Object(map[]), Nil);
    hide EncodeFields, ResetFields, DecodeFields, Addressed;
  }

  /** The third kind of residue: an embedded struct under a key of another name is zeroed, and with it
      what JSON does not see, such as a request's identity or force filters. */
  lemma HiddenFieldLost(ts: Types, n: int)
    requires Numbers(ts) && n != 0
    ensures var f := Embedded("Scope", Key("filters"), true, false, [Plain("Secret", Excluded, true, 0)]);
            var before := [StructValue([NumberValue(n)])];
            var merged := Merged(ts, Struct([f]), StructValue(before), map[]);
            && Residue(ts, [f], merged.members, before)
            && Decode(ts, Struct([f]), merged, Reset(ts, Struct([f]), StructValue(before))) ==
               Some(StructValue([StructValue([NumberValue(0)])]))
  {
    var secret := Plain("Secret", Excluded, true, 0);
    var f := Embedded("Scope", Key("filters"), true, false, [secret]);
    var inner := [NumberValue(n)];
    assert |ts.LowerCamel("Scope")| == 5 && |"filters"| == 7;
    assert [f][1..] == [] && [secret][1..] == [] && inner[1..] == [] && [StructValue(inner)][1..] == [];
    assert EncodeFields(ts, [secret], inner) == map[];
    assert EncodeFields(ts, [f], [StructValue(inner)]) == map["filters" := Object(map[])];
    var merged := Merged(ts, Struct([f]), StructValue([StructValue(inner)]), map[]);
    assert merged.members == map["filters" := Object(map[])];
    assert ts.ZeroFields([secret]) == [NumberValue(0)];
    var zero := StructValue([NumberValue(0)]);
    assert ResetFields(ts, [f], [StructValue(inner)]) == [zero];
    assert [NumberValue(0)][1..] == [] && [zero][1..] == [];
    assert DecodeFields(ts, [secret], Object(map[]), [NumberValue(0)]) == Some([NumberValue(0)]);
    DecodeKeyed(ts, f, Object(map[]), zero);
    assert DecodeField(ts, f, merged, zero) == Some(zero);
    assert DecodeFields(ts, [f], merged, [zero]) == Some([zero]);
    assert Hides(ts, [secret], inner);
    assert ResidueOn(ts, f, map["filters" := Object(map[])], StructValue(inner));
    StructSteps(ts, [f], [StructValue(inner)], map["filters" := Object(map[])]);
    StructSteps(ts, [f], [zero], map["filters" := Object(map[])]);
    hide EncodeFields, ResetFields, DecodeFields, Encode, Decode, Reset, DecodeField;
  }

  /** Embedded structs have to be exported: the reset skips an unexported one, whose promoted fields
      JSON nevertheless sees, so a null leaves such a field as it was. */
  lemma UnexportedEmbedIsNotReset(ts: Types, n: int)
    requires Numbers(ts) && n != 0
    ensures var f := Embedded("base", Untagged, false, false, [NumberField("x")]);
            var before := [StructValue([NumberValue(n)])];
            var merged := Merged(ts, Struct([f]), StructValue(before), map["x" := Null]);
            && Decode(ts, Struct([f]), merged, Reset(ts, Struct([f]), StructValue(before))) == Some(StructValue(before))
            && Decode(ts, Struct([f]), merged, ts.Zero(Struct([f]))) ==
              Some(StructValue([StructValue([NumberValue(0)])]))
  {
    var f := Embedded("base", Untagged, false, false, [NumberField("x")]);
    var inner := StructValue([NumberValue(n)]);
    NumberFacts(ts, "x", n);
    NumberFacts(ts, "x", 0);
    assert [f][1..] == [] && [inner][1..] == [] && [StructValue([NumberValue(0)])][1..] == [];
    assert EncodeFields(ts, [f], [inner]) == map["x" := Number(n)];
    var merged := Merged(ts, Struct([f]), StructValue([inner]), map["x" := Null]);
    assert merged.members == map[];
    assert ResetFields(ts, [f], [inner]) == [inner];
    assert ts.ZeroFields([f]) == [StructValue([NumberValue(0)])];
    assert DecodeFields(ts, [f], merged, [inner]) == Some([inner]);
    assert DecodeFields(ts, [f], merged, ts.ZeroFields([f])) == Some([StructValue([NumberValue(0)])]);
  }

  // ----- two inputs merged to the same document ------------------------------------------------

  /** Equal in every field JSON does not see, at the top level and through any embedding; a nil
      pointer has zeros. */
  ghost predicate SameHidden(ts: Types, fields: seq<Field>, a: seq<Value>, b: seq<Value>)
    requires |a| == |b| == |fields|
    decreases fields
  {
    fields == [] || (SameHiddenOn(ts, fields[0], a[0], b[0]) && SameHidden(ts, fields[1..], a[1..], b[1..]))
  }

  ghost predicate SameHiddenOn(ts: Types, f: Field, a: Value, b: Value)
    decreases f
  {
    if !Visible(f) then a == b
    else f.Embedded? ==> SameHidden(ts, f.fields, ts.Open(f.pointer, f.fields, a), ts.Open(f.pointer, f.fields, b))
  }

  /** The embedded pointers that are reset from inside, and that the document neither sets nor makes
      nil, are set in both or nil in both. */
  predicate SamePointers(ts: Types, fields: seq<Field>, members: Members, a: seq<Value>, b: seq<Value>)
    requires |a| == |b| == |fields|
    decreases fields
  {
    fields == [] ||
    (SamePointersOn(ts, fields[0], members, a[0], b[0]) && SamePointers(ts, fields[1..], members, a[1..], b[1..]))
  }

  predicate SamePointersOn(ts: Types, f: Field, members: Members, a: Value, b: Value)
    decreases f
  {
    f.Embedded? && Visible(f) && ResetsInside(ts, f) && !Nils(f, members) ==>
      && (f.pointer && !Sets(f, members) ==> (a.Ptr? && b.Ptr?) || a == b)
      && SamePointers(ts, f.fields, Part(f, members), ts.Open(f.pointer, f.fields, a), ts.Open(f.pointer, f.fields, b))
  }

  lemma {:induction false} SamePointersReflexive(ts: Types, fields: seq<Field>, members: Members, a: seq<Value>)
    requires |a| == |fields|
    ensures SamePointers(ts, fields, members, a, a)
    decreases fields
  {
    if fields != [] {
      var f := fields[0];
      if f.Embedded? { SamePointersReflexive(ts, f.fields, Part(f, members), ts.Open(f.pointer, f.fields, a[0])); }
      SamePointersReflexive(ts, fields[1..], members, a[1..]);
    }
  }

  lemma HeadAndRest(values: seq<Value>)
    requires values != []
    ensures values == [values[0]] + values[1..]
  {
  }

  lemma {:induction false} SameResults(ts: Types, fields: seq<Field>, members: Members, a: seq<Value>, b: seq<Value>)
    requires |a| == |b| == |fields| && EmbedsExported(fields) && SameHidden(ts, fields, a, b)
    ensures var first := DecodeFields(ts, fields, Object(members), ResetFields(ts, fields, a));
            var second := DecodeFields(ts, fields, Object(members), ResetFields(ts, fields, b));
            && (first.Some? <==> second.Some?)
            && (first.Some? ==> (first == second <==> SamePointers(ts, fields, members, a, b)))
    decreases fields
  {
    if fields != [] {
      SameResultsOn(ts, fields[0], members, a[0], b[0]);
      SameResults(ts, fields[1..], members, a[1..], b[1..]);
      var first := DecodeFields(ts, fields, Object(members), ResetFields(ts, fields, a));
      var second := DecodeFields(ts, fields, Object(members), ResetFields(ts, fields, b));
      if first.Some? {
        HeadAndRest(first.value);
        HeadAndRest(second.value);
      }
    }
  }

  lemma {:induction false} SameResultsOn(ts: Types, f: Field, members: Members, a: Value, b: Value)
    requires EmbedsExported([f]) && SameHiddenOn(ts, f, a, b)
    ensures var first := DecodeField(ts, f, Object(members), ResetField(ts, f, a));
            var second := DecodeField(ts, f, Object(members), ResetField(ts, f, b));
            && (first.Some? <==> second.Some?)
            && (first.Some? ==> (first == second <==> SamePointersOn(ts, f, members, a, b)))
    decreases f
  {
    if f.Embedded? && Visible(f) && ResetsInside(ts, f) {
      hide SameHidden, SamePointers, DecodeFields, ResetFields, Addressed, Decode, DecodeField, ResetField, Shaped;
      if f.tag.Key? {
        SameKeyed(ts, f, members, a, b);
      } else {
        SameUntagged(ts, f, members, a, b);
      }
    }
  }

  /** What becomes of an embedded struct whose fields were reset and decoded to `values`. */
  function Outcome(pointer: bool, v: Value, sets: bool, values: Option<seq<Value>>): Option<Value> {
    if pointer && !v.Ptr? && !sets then Some(v)
    else
      var decoded :- values;
      Some(Close(pointer, decoded))
  }

  lemma SameOutcomes(pointer: bool, a: Value, b: Value, sets: bool, first: Option<seq<Value>>,
                     second: Option<seq<Value>>)
    requires first.Some? == second.Some? && (!sets ==> first.Some?)
    requires pointer && !a.Ptr? && !b.Ptr? ==> first == second
    ensures Outcome(pointer, a, sets, first).Some? == Outcome(pointer, b, sets, second).Some? == first.Some?
    ensures first.Some? ==>
      (Outcome(pointer, a, sets, first) == Outcome(pointer, b, sets, second) <==>
       (pointer && !sets ==> (a.Ptr? && b.Ptr?) || a == b) && first == second)
  {
  }

  lemma {:induction false} SameUntagged(ts: Types, f: Field, members: Members, a: Value, b: Value)
    requires EmbedsExported([f]) && SameHiddenOn(ts, f, a, b) && f.Embedded? && Visible(f) && f.tag.Untagged?
    ensures var first := DecodeField(ts, f, Object(members), ResetField(ts, f, a));
            var second := DecodeField(ts, f, Object(members), ResetField(ts, f, b));
            && (first.Some? <==> second.Some?)
            && (first.Some? ==> (first == second <==> SamePointersOn(ts, f, members, a, b)))
    decreases f, 0
  {
    hide SameHidden, SamePointers, DecodeFields, ResetFields, DecodeField, ResetField, Shaped, Sets, Outcome;
    var x, y := ts.Open(f.pointer, f.fields, a), ts.Open(f.pointer, f.fields, b);
    SameResults(ts, f.fields, members, x, y);
    UntaggedOutcome(ts, f, members, a);
    UntaggedOutcome(ts, f, members, b);
    SameOutcomes(f.pointer, a, b, Sets(f, members),
      DecodeFields(ts, f.fields, Object(members), ResetFields(ts, f.fields, x)),
                 DecodeFields(ts, f.fields, Object(members), ResetFields(ts, f.fields, y)));
  }

  /** An untagged embedded struct is decoded from the whole document; a pointer may stay nil. */
  lemma UntaggedOutcome(ts: Types, f: Field, members: Members, v: Value)
    requires f.Embedded? && Visible(f) && f.tag.Untagged? && EmbedsExported([f])
    ensures var reset := ResetFields(ts, f.fields, ts.Open(f.pointer, f.fields, v));
            var values := DecodeFields(ts, f.fields, Object(members), reset);
            && (!Sets(f, members) ==> values.Some?)
            && DecodeField(ts, f, Object(members), ResetField(ts, f, v)) ==
              Outcome(f.pointer, v, Sets(f, members), values)
  {
    hide DecodeFields, ResetFields, Addressed;
    ZeroReset(ts, f.fields);
    if !Addressed(f.fields, members) {
      NothingDecoded(ts, f, members, v);
    }
  }

  /** A value that is neither an object nor null cannot be decoded into an embedded struct. */
  predicate Mistyped(f: Field, members: Members)
    requires f.Embedded?
  {
    f.tag.Key? && f.tag.key in members && !members[f.tag.key].Object? && !members[f.tag.key].Null?
  }

  lemma {:induction false} SameKeyed(ts: Types, f: Field, members: Members, a: Value, b: Value)
    requires EmbedsExported([f]) && SameHiddenOn(ts, f, a, b)
    requires f.Embedded? && Visible(f) && f.tag.Key? && ResetsInside(ts, f)
    ensures var first := DecodeField(ts, f, Object(members), ResetField(ts, f, a));
            var second := DecodeField(ts, f, Object(members), ResetField(ts, f, b));
            && (first.Some? <==> second.Some?)
            && (first.Some? ==> (first == second <==> SamePointersOn(ts, f, members, a, b)))
    decreases f, 0
  {
    hide SameHidden, SamePointers, DecodeFields, ResetFields, DecodeField, ResetField, Shaped, Sets, Nils, Part,
      Mistyped, Outcome;
    var x, y := ts.Open(f.pointer, f.fields, a), ts.Open(f.pointer, f.fields, b);
    SameResults(ts, f.fields, Part(f, members), x, y);
    KeyedOutcome(ts, f, members, a);
    KeyedOutcome(ts, f, members, b);
    SameOutcomes(f.pointer, a, b, Sets(f, members),
                 DecodeFields(ts, f.fields, Object(Part(f, members)), ResetFields(ts, f.fields, x)),
                 DecodeFields(ts, f.fields, Object(Part(f, members)), ResetFields(ts, f.fields, y)));
  }

  lemma NothingDecoded(ts: Types, f: Field, members: Members, v: Value)
    requires f.Embedded? && EmbedsExported([f]) && !Addressed(f.fields, members)
    ensures var reset := ResetFields(ts, f.fields, ts.Open(f.pointer, f.fields, v));
            DecodeFields(ts, f.fields, Object(members), reset) == Some(reset)
  {
    var inner := ts.Open(f.pointer, f.fields, v);
    ResetShaped(ts, f.fields, inner);
    UnaddressedDecode(ts, f.fields, members, ResetFields(ts, f.fields, inner));
  }

  /** An embedded struct under its own name: decoded from its part of the document, or left as reset. */
  lemma KeyedOutcome(ts: Types, f: Field, members: Members, v: Value)
    requires f.Embedded? && Visible(f) && f.tag.Key? && ResetsInside(ts, f) && EmbedsExported([f])
    ensures var reset := ResetFields(ts, f.fields, ts.Open(f.pointer, f.fields, v));
            var values := DecodeFields(ts, f.fields, Object(Part(f, members)), reset);
            && (!Sets(f, members) ==> values.Some?)
            && DecodeField(ts, f, Object(members), ResetField(ts, f, v)) ==
               if Nils(f, members) then Some(Nil)
               else if Mistyped(f, members) then None
               else Outcome(f.pointer, v, Sets(f, members), values)
  {
    hide ResetFields, DecodeFields, Addressed, Types.ZeroFields, Decode;
    EmptyUnaddressed(f.fields);
    NothingDecoded(ts, f, map[], v);
    ZeroReset(ts, f.fields);
    if f.tag.key in members {
      DecodeKeyed(ts, f, members[f.tag.key], ResetField(ts, f, v));
    }
  }

  /** Two inputs with equal hidden fields that are merged to the same document end equal exactly if
      their embedded pointers are alike where the document does not decide. */
  lemma EqualMergesEndEqual(ts: Types, fields: seq<Field>, before1: seq<Value>, document1: Members,
                            before2: seq<Value>, document2: Members)
    requires |before1| == |before2| == |fields| && EmbedsExported(fields) && SameHidden(ts, fields, before1, before2)
    requires Merged(ts, Struct(fields), StructValue(before1), document1) ==
             Merged(ts, Struct(fields), StructValue(before2), document2)
    ensures var merged := Merged(ts, Struct(fields), StructValue(before1), document1);
            var result1 := Decode(ts, Struct(fields), merged, Reset(ts, Struct(fields), StructValue(before1)));
            var result2 := Decode(ts, Struct(fields), merged, Reset(ts, Struct(fields), StructValue(before2)));
            && merged.Object?
            && (result1.Some? <==> result2.Some?)
            && (result1.Some? ==> (result1 == result2 <==> SamePointers(ts, fields, merged.members, before1, before2)))
  {
    hide SameHidden, SamePointers, Encode, ResetFields, DecodeFields;
    SameResults(ts, fields, Merged(ts, Struct(fields), StructValue(before1), document1).members, before1, before2);
  }

  /** The condition is needed: an embedded pointer that was nil stays nil, and one that was set stays
      set, after merges to the same document. */
  lemma EqualMergesEndDifferent(ts: Types, n: int)
    requires Numbers(ts)
    ensures var f := Embedded("Base", Untagged, true, true, [NumberField("x")]);
            var before1, before2 := [Nil], [Ptr(StructValue([NumberValue(n)]))];
            var merged := Merged(ts, Struct([f]), StructValue(before1), map["x" := Null]);
            && SameHidden(ts, [f], before1, before2)
            && merged == Merged(ts, Struct([f]), StructValue(before2), map["x" := Null])
            && Decode(ts, Struct([f]), merged, Reset(ts, Struct([f]), StructValue(before1))) == Some(StructValue([Nil]))
            && Decode(ts, Struct([f]), merged, Reset(ts, Struct([f]), StructValue(before2))) ==
               Some(StructValue([Ptr(StructValue([NumberValue(0)]))]))
  {
    var f := Embedded("Base", Untagged, true, true, [NumberField("x")]);
    var v := Ptr(StructValue([NumberValue(n)]));
    PointerFacts(ts, n);
    PointerFacts(ts, 0);
    NumberFacts(ts, "x", 0);
    assert [NumberField("x")][1..] == [] && [f][1..] == [];
    assert SameHidden(ts, [NumberField("x")], [NumberValue(0)], [NumberValue(n)]);
    assert SameHidden(ts, [f], [Nil], [v]);
    StructSteps(ts, [f], [v], map[]);
    StructSteps(ts, [f], [Ptr(StructValue([NumberValue(0)]))], map[]);
    StructSteps(ts, [f], [Nil], map[]);
    hide EncodeFields, ResetFields, DecodeFields, Addressed, SameHidden, Encode, Decode, Reset;
    assert Merged(ts, Struct([f]), StructValue([v]), map["x" := Null]).members == map[];
    assert Merged(ts, Struct([f]), StructValue([Nil]), map["x" := Null]).members == map[];
  }

  // ----- one field ---------------------------------------------------------------------------

  /** No field but `i` is addressed by the key of field `i`. */
  ghost predicate OwnKey(fields: seq<Field>, i: nat)
    requires i < |fields|
  {
    && fields[i].Plain? && Visible(fields[i])
    && forall k :: 0 <= k < |fields| && k != i ==> !AddressesField(fields[k], map[JsonKey(fields[i]) := Null])
  }

  lemma {:induction false} DecodeFieldsAt(ts: Types, fields: seq<Field>, j: Json, values: seq<Value>, i: nat)
    requires j.Object? && |values| == |fields| && i < |fields|
    requires DecodeFields(ts, fields, j, values).Some?
    ensures Some(DecodeFields(ts, fields, j, values).value[i]) == DecodeField(ts, fields[i], j, values[i])
    decreases i
  {
    if i > 0 {
      DecodeFieldsAt(ts, fields[1..], j, values[1..], i - 1);
    }
  }

  /** Marshalling writes only keys that address some field. */
  lemma {:induction false} EncodeAddresses(ts: Types, fields: seq<Field>, values: seq<Value>, k: string)
    requires |values| == |fields| && k in EncodeFields(ts, fields, values)
    ensures Addressed(fields, map[k := Null])
    decreases fields
  {
    var f := fields[0];
    if k in EncodeFields(ts, fields[1..], values[1..]) {
      EncodeAddresses(ts, fields[1..], values[1..], k);
    } else if f.Embedded? && f.tag.Untagged? {
      var inner := if f.pointer && values[0].Ptr? then values[0].to else values[0];
      assert Encode(ts, EmbeddedType(f), values[0]) == Encode(ts, Struct(f.fields), inner) by {
        if f.pointer { assert values[0].Ptr?; }
      }
      EncodeAddresses(ts, f.fields, inner.values, k);
    }
  }

  lemma {:induction false} AddressedBy(fields: seq<Field>, members: Members)
    requires forall k :: 0 <= k < |fields| ==> !AddressesField(fields[k], members)
    ensures !Addressed(fields, members)
  {
    if fields != [] {
      AddressedBy(fields[1..], members);
    }
  }

  lemma EncodeFieldsAt(ts: Types, fields: seq<Field>, values: seq<Value>, i: nat)
    requires |values| == |fields| && i < |fields| && OwnKey(fields, i)
    ensures var key := JsonKey(fields[i]);
            var members := EncodeFields(ts, fields, values);
            key in members && members[key] == Encode(ts, ts.TypeOf(fields[i].typ), values[i])
  {
    EncodeOne(ts, fields[i], values[i]);
    EncodedByField(ts, fields, values, i, JsonKey(fields[i]));
  }

  /** What a merge does to one field with a key of its own: omitted, it sees only its own value;
      null, it becomes zero; otherwise it is its value merged with the patch for it. */
  lemma FieldAfterMerge(ts: Types, fields: seq<Field>, before: seq<Value>, document: Members, i: nat)
    requires |before| == |fields| && i < |fields| && OwnKey(fields, i)
    requires Decode(ts, Struct(fields), Merged(ts, Struct(fields), StructValue(before), document),
                    Reset(ts, Struct(fields), StructValue(before))).Some?
    ensures var result := Decode(ts, Struct(fields), Merged(ts, Struct(fields), StructValue(before), document),
                                 Reset(ts, Struct(fields), StructValue(before))).value;
            var t, zero, key := ts.TypeOf(fields[i].typ), ts.ZeroOf(fields[i].typ), JsonKey(fields[i]);
            && result.StructValue? && |result.values| == |fields|
            && Some(result.values[i]) ==
               if key !in document then Decode(ts, t, Encode(ts, t, before[i]), zero)
               else if document[key].Null? then Some(zero)
               else Decode(ts, t, MergePatch(Encode(ts, t, before[i]), document[key]), zero)
  {
    var encoded := EncodeFields(ts, fields, before);
    assert Encode(ts, Struct(fields), StructValue(before)) == Object(encoded);
    var merged := MergePatch(Object(encoded), Object(document));
    var key := JsonKey(fields[i]);
    EncodeFieldsAt(ts, fields, before, i);
    var reset := ResetFields(ts, fields, before);
    DecodeFieldsAt(ts, fields, merged, reset, i);
    ResetFieldsAt(ts, fields, before, i);
  }

  // ----- where a field is in JSON --------------------------------------------------------------

  /** A path through embedded structs to a plain field, all of which JSON sees. */
  predicate OnPath(fields: seq<Field>, path: seq<nat>)
    decreases path
  {
    && path != [] && path[0] < |fields| && Visible(fields[path[0]])
    && if |path| == 1 then fields[path[0]].Plain?
       else fields[path[0]].Embedded? && OnPath(fields[path[0]].fields, path[1..])
  }

  function FieldOn(fields: seq<Field>, path: seq<nat>): (f: Field)
    requires OnPath(fields, path)
    ensures f.Plain? && Visible(f)
    decreases path
  {
    if |path| == 1 then fields[path[0]] else FieldOn(fields[path[0]].fields, path[1..])
  }

  /** The value at the end of the path, if the pointers on the way are set. */
  function ValueOn(fields: seq<Field>, path: seq<nat>, values: seq<Value>): Option<Value>
    requires OnPath(fields, path) && |values| == |fields|
    decreases path
  {
    var f := fields[path[0]];
    if |path| == 1 then Some(values[path[0]])
    else
      match values[path[0]]
      case StructValue(inner) => if !f.pointer && |inner| == |f.fields| then ValueOn(f.fields, path[1..], inner)
        else None
      case Ptr(StructValue(inner)) => if f.pointer && |inner| == |f.fields| then ValueOn(f.fields, path[1..], inner)
        else None
      case _ => None
  }

  /** The keys that lead to the field in the marshalled object: its own one, below those of the embedded
      structs that have one. */
  function Location(fields: seq<Field>, path: seq<nat>): (keys: seq<string>)
    requires OnPath(fields, path)
    ensures keys != []
    decreases path
  {
    var f := fields[path[0]];
    if |path| == 1 then [JsonKey(f)]
    else (if f.tag.Key? then [f.tag.key] else []) + Location(f.fields, path[1..])
  }

  /** No field beside the path is addressed by the key that the path needs. */
  ghost predicate Alone(fields: seq<Field>, path: seq<nat>)
    requires OnPath(fields, path)
    decreases path
  {
    && (forall k :: 0 <= k < |fields| && k != path[0] ==>
      !AddressesField(fields[k], map[Location(fields, path)[0] := Null]))
    && (|path| > 1 ==> Alone(fields[path[0]].fields, path[1..]))
  }

  /** A key that no other field is addressed by is marshalled as its own field alone marshals it. */
  lemma {:induction false} EncodedByField(ts: Types, fields: seq<Field>, values: seq<Value>, i: nat, key: string)
    requires |values| == |fields| && i < |fields| && key in EncodeFields(ts, [fields[i]], [values[i]])
    requires forall k :: 0 <= k < |fields| && k != i ==> !AddressesField(fields[k], map[key := Null])
    ensures key in EncodeFields(ts, fields, values)
    ensures EncodeFields(ts, fields, values)[key] == EncodeFields(ts, [fields[i]], [values[i]])[key]
    decreases i
  {
    var only, value := [fields[0]], [values[0]];
    assert only[1..] == [] && value[1..] == [];
    var first := EncodeFields(ts, only, value);
    assert EncodeFields(ts, fields, values) == EncodeFields(ts, fields[1..], values[1..]) + first by {
      assert EncodeFields(ts, [], []) == map[];
    }
    if i > 0 {
      forall k | 0 <= k < |fields| - 1 && k != i - 1 ensures !AddressesField(fields[1..][k], map[key := Null]) {
        assert fields[1..][k] == fields[k + 1];
      }
      EncodedByField(ts, fields[1..], values[1..], i - 1, key);
      if key in first {
        EncodeAddresses(ts, only, value, key);
        AddressedBy(only, map[key := Null]);
      }
    }
  }

  /** What one field alone is marshalled to. */
  lemma EncodeOne(ts: Types, f: Field, v: Value)
    requires Visible(f)
    ensures f.Plain? ==> EncodeFields(ts, [f], [v]) == map[JsonKey(f) := Encode(ts, ts.TypeOf(f.typ), v)]
    ensures f.Embedded? && f.tag.Key? ==> EncodeFields(ts, [f], [v]) == map[f.tag.key := Encode(ts, EmbeddedType(f), v)]
    ensures f.Embedded? && f.tag.Untagged? && Encode(ts, EmbeddedType(f), v).Object? ==>
      EncodeFields(ts, [f], [v]) == Encode(ts, EmbeddedType(f), v).members
  {
    hide Encode;
    assert [f][1..] == [] && [v][1..] == [];
    assert EncodeFields(ts, [], []) == map[];
    assert forall m: Members :: map[] + m == m;
  }

  /** The field's location is where its value is marshalled to. */
  lemma {:induction false} EncodedAtLocation(ts: Types, fields: seq<Field>, path: seq<nat>, values: seq<Value>)
    requires OnPath(fields, path) && Alone(fields, path) && |values| == |fields| && ValueOn(fields, path, values).Some?
    ensures At(Object(EncodeFields(ts, fields, values)), Location(fields, path)) ==
            Some(Encode(ts, ts.TypeOf(FieldOn(fields, path).typ), ValueOn(fields, path, values).value))
    decreases path
  {
    var f, v := fields[path[0]], values[path[0]];
    var keys := Location(fields, path);
    if |path| > 1 {
      var inner := if f.pointer then v.to.values else v.values;
      EncodedAtLocation(ts, f.fields, path[1..], inner);
      EmbeddedEncodes(ts, f, v, inner);
      if f.tag.Key? {
        assert keys[1..] == Location(f.fields, path[1..]);
      } else {
        assert keys == Location(f.fields, path[1..]);
      }
    } else {
      assert keys[1..] == [];
    }
    EncodeOne(ts, f, v);
    EncodedByField(ts, fields, values, path[0], keys[0]);
  }

  lemma EmbeddedEncodes(ts: Types, f: Field, v: Value, inner: seq<Value>)
    requires f.Embedded? && |inner| == |f.fields| && v == Close(f.pointer, inner)
    ensures Encode(ts, EmbeddedType(f), v) == Object(EncodeFields(ts, f.fields, inner))
  {
  }

  /** No embedded struct on the way has a key of its own. */
  predicate NoKeyedEmbedding(fields: seq<Field>, path: seq<nat>)
    requires OnPath(fields, path)
    decreases path
  {
    |path| > 1 ==> !fields[path[0]].tag.Key? && NoKeyedEmbedding(fields[path[0]].fields, path[1..])
  }

  /** A field is located at its own key exactly if no embedded struct on the way has a key. */
  lemma {:induction false} LocatedAtOwnKey(fields: seq<Field>, path: seq<nat>)
    requires OnPath(fields, path)
    ensures NoKeyedEmbedding(fields, path) ==> Location(fields, path) == [JsonKey(FieldOn(fields, path))]
    ensures !NoKeyedEmbedding(fields, path) ==> |Location(fields, path)| > 1
    decreases path
  {
    if |path| > 1 {
      LocatedAtOwnKey(fields[path[0]].fields, path[1..]);
    }
  }

  // ----- round trip of plain values ----------------------------------------------------------

  ghost predicate ZerosConsistent(ts: Types) {
    forall id :: ts.ZeroOf(id) == ts.Zero(ts.TypeOf(id))
  }

  /** Values that JSON represents completely: no hidden or embedded fields, distinct keys, and no
      pointer to something that is written as null. */
  ghost predicate Representable(ts: Types, t: InputType, v: Value)
    decreases v, t
  {
    match (t, v)
    case (BoolType, BoolValue(_)) => true
    case (NumberType, NumberValue(_)) => true
    case (StringType, StringValue(_)) => true
    case (Dynamic, DynamicValue(_)) => true
    case (Pointer(_), Nil) => true
    case (Slice(_), Nil) => true
    case (Map(_), Nil) => true
    case (Pointer(elem), Ptr(to)) => Representable(ts, elem, to) && Encode(ts, elem, to) != Null
    case (Slice(elemType), SliceValue(elems)) =>
      forall i :: 0 <= i < |elems| ==> Representable(ts, ts.TypeOf(elemType), elems[i])
    case (Map(valueType), MapValue(entries)) =>
      forall k :: k in entries ==> Representable(ts, ts.TypeOf(valueType), entries[k])
    case (Struct(fields), StructValue(values)) =>
      && |values| == |fields|
      && forall i :: 0 <= i < |fields| ==> OwnKey(fields, i) && Representable(ts, ts.TypeOf(fields[i].typ), values[i])
    case _ => false
  }

  lemma {:induction false} RoundTrip(ts: Types, t: InputType, v: Value)
    requires ZerosConsistent(ts) && Representable(ts, t, v)
    ensures Decode(ts, t, Encode(ts, t, v), ts.Zero(t)) == Some(v)
    decreases v, t, 1
  {
    hide DecodeFields, EncodeFields, DecodeItems;
    match (t, v) {
      case (Pointer(elem), Ptr(to)) => RoundTrip(ts, elem, to);
      case (Slice(elemType), SliceValue(elems)) => RoundTripItems(ts, elemType, elems);
      case (Map(valueType), MapValue(entries)) => RoundTripEntries(ts, valueType, entries);
      case (Struct(fields), StructValue(values)) => RoundTripFields(ts, fields, values);
      case _ =>
    }
  }

  lemma {:induction false} RoundTripEntries(ts: Types, valueType: TypeId, entries: map<string, Value>)
    requires ZerosConsistent(ts) && Representable(ts, Map(valueType), MapValue(entries))
    ensures Decode(ts, Map(valueType), Encode(ts, Map(valueType), MapValue(entries)), Nil) == Some(MapValue(entries))
    decreases MapValue(entries), Map(valueType), 0
  {
    var t := ts.TypeOf(valueType);
    forall k | k in entries ensures Decode(ts, t, Encode(ts, t, entries[k]), ts.ZeroOf(valueType)) == Some(entries[k]) {
      RoundTrip(ts, t, entries[k]);
    }
    hide Encode;
    var j := Object(map k | k in entries :: Encode(ts, t, entries[k]));
    var decoded := Decode(ts, Map(valueType), j, Nil);
    assert decoded.Some? && decoded.value.entries == entries;
  }

  lemma {:induction false} RoundTripFields(ts: Types, fields: seq<Field>, values: seq<Value>)
    requires ZerosConsistent(ts) && Representable(ts, Struct(fields), StructValue(values))
    ensures DecodeFields(ts, fields, Object(EncodeFields(ts, fields, values)), ts.ZeroFields(fields)) == Some(values)
    decreases StructValue(values), Struct(fields), 0
  {
    var j := Object(EncodeFields(ts, fields, values));
    forall i | 0 <= i < |fields|
      ensures DecodeField(ts, fields[i], j, ts.ZeroFields(fields)[i]) == Some(values[i])
    {
      hide Encode, Decode, EncodeFields;
      EncodeFieldsAt(ts, fields, values, i);
      ZeroFieldsAt(ts, fields, i);
      RoundTrip(ts, ts.TypeOf(fields[i].typ), values[i]);
    }
    DecodeFieldsFrom(ts, fields, j, ts.ZeroFields(fields), values);
  }

  lemma {:induction false} RoundTripItems(ts: Types, elemType: TypeId, elems: seq<Value>)
    requires ZerosConsistent(ts)
    requires forall i :: 0 <= i < |elems| ==> Representable(ts, ts.TypeOf(elemType), elems[i])
    ensures DecodeItems(ts, elemType, Encode(ts, Slice(elemType), SliceValue(elems)).items, []) == Some(elems)
    decreases elems
  {
    if elems != [] {
      RoundTrip(ts, ts.TypeOf(elemType), elems[0]);
      RoundTripItems(ts, elemType, elems[1..]);
      assert Encode(ts, Slice(elemType), SliceValue(elems)).items[1..] ==
             Encode(ts, Slice(elemType), SliceValue(elems[1..])).items;
      assert elems == [elems[0]] + elems[1..];
    }
  }

  lemma {:induction false} ZeroFieldsAt(ts: Types, fields: seq<Field>, i: nat)
    requires i < |fields|
    ensures ts.ZeroFields(fields)[i] == ts.ZeroField(fields[i])
    decreases i
  {
    if i > 0 {
      ZeroFieldsAt(ts, fields[1..], i - 1);
    }
  }

  lemma {:induction false} DecodeFieldsFrom(ts: Types, fields: seq<Field>, j: Json, values: seq<Value>,
                                            decoded: seq<Value>)
    requires j.Object? && |values| == |decoded| == |fields|
    requires forall i :: 0 <= i < |fields| ==> DecodeField(ts, fields[i], j, values[i]) == Some(decoded[i])
    ensures DecodeFields(ts, fields, j, values) == Some(decoded)
    decreases fields
  {
    if fields != [] {
      DecodeFieldsFrom(ts, fields[1..], j, values[1..], decoded[1..]);
      assert decoded == [decoded[0]] + decoded[1..];
    }
  }

  /** An omitted field keeps its value. */
  lemma OmittedFieldUnchanged(ts: Types, fields: seq<Field>, before: seq<Value>, document: Members, i: nat)
    requires |before| == |fields| && i < |fields| && OwnKey(fields, i) && JsonKey(fields[i]) !in document
    requires ZerosConsistent(ts) && Representable(ts, ts.TypeOf(fields[i].typ), before[i])
    requires Decode(ts, Struct(fields), Merged(ts, Struct(fields), StructValue(before), document),
                    Reset(ts, Struct(fields), StructValue(before))).Some?
    ensures var result := Decode(ts, Struct(fields), Merged(ts, Struct(fields), StructValue(before), document),
                                 Reset(ts, Struct(fields), StructValue(before))).value;
            result.StructValue? && |result.values| == |fields| && result.values[i] == before[i]
  {
    FieldAfterMerge(ts, fields, before, document, i);
    RoundTrip(ts, ts.TypeOf(fields[i].typ), before[i]);
  }
}
