/**
 Restoring explicit clears in patch.go: null and [] in the original document empty the relation
 they name on every parent entity, before the entity is written.
 */
module PatchNormalize {
  import opened GoModel
  import opened PatchAssociations
  import opened Json
  import opened PatchDocument
  import opened PatchWrite
  import opened Text
  import opened Wrappers

  /** An entity value: pointers and interfaces, slices and arrays, structs by field index. */
  datatype Value =
    | Nil
    | Scalar(n: int)
    | Ptr(to: Value)
    | Elems(items: seq<Value>)
    | Record(fields: map<Index, Slot>)

  /** A struct field as reflection sees it: its static type's zero value, whether that type is a
      slice, whether the field can be set, and what it holds. */
  datatype Slot = Slot(isSlice: bool, zero: Value, settable: bool, value: Value)

  datatype ClearError = NotInSchema | Unresolved | NoForeignKeyColumn | NoField | NotSettable

  /** One relation to clear; `foreignKey` is set when the document says null rather than []. */
  datatype Clear = Clear(segments: seq<string>, foreignKey: bool)

  function ClearedValue(s: Slot): Value {
    if s.isSlice then Elems([]) else s.zero
  }

  /** `ColumnByName`. */
  function ColumnByName(columns: seq<Column>, name: string): Option<Index> {
    if columns == [] then None
    else if columns[0].name == name then Some(columns[0].fieldIndex)
    else ColumnByName(columns[1..], name)
  }

  /** `clearPatchField` on the field at an index. */
  function ClearField(fields: map<Index, Slot>, index: Index): Result<map<Index, Slot>, ClearError> {
    if index !in fields then Err(NoField)
    else if !fields[index].settable then Err(NotSettable)
    else Ok(fields[index := fields[index].(value := ClearedValue(fields[index]))])
  }

  /** The last segment: the relation itself, and the owning foreign key if the clear is a null. */
  function ClearLast(fields: map<Index, Slot>, schema: Schema, relation: Relation, foreignKey: bool):
    Result<map<Index, Slot>, ClearError>
  {
    if relation.fieldIndex !in fields then Err(NoField)
    else if foreignKey && relation.kind == BelongsTo then
      match ColumnByName(schema.columns, relation.foreignKey)
      case None => Err(NoForeignKeyColumn)
      case Some(column) =>
        var withoutKey :- ClearField(fields, column);
        ClearField(withoutKey, relation.fieldIndex)
    else ClearField(fields, relation.fieldIndex)
  }

  /** `clearPatchRelationValue`. */
  function ClearAt(w: World, v: Value, schema: Schema, segments: seq<string>, foreignKey: bool):
    Result<Value, ClearError>
    requires segments != []
    decreases v
  {
    match v
    case Nil => Ok(v)
    case Scalar(_) => Ok(v)
    case Ptr(to) =>
      var cleared :- ClearAt(w, to, schema, segments, foreignKey);
      Ok(Ptr(cleared))
    case Elems(items) =>
      var cleared :- ClearItems(w, items, schema, segments, foreignKey);
      Ok(Elems(cleared))
    case Record(fields) =>
      if segments[0] !in schema.relationships then Err(NotInSchema)
      else
        var relation := schema.relationships[segments[0]];
        if relation.fieldIndex !in fields then Err(NoField)
        else if |segments| == 1 then
          var cleared :- ClearLast(fields, schema, relation, foreignKey);
          Ok(Record(cleared))
        else if relation.relatedSchema.None? || relation.relatedSchema.value !in w.schemas then Err(Unresolved)
        else
          var slot := fields[relation.fieldIndex];
          var below :- ClearAt(w, slot.value, w.schemas[relation.relatedSchema.value], segments[1..], foreignKey);
          Ok(Record(fields[relation.fieldIndex := slot.(value := below)]))
  }

  function ClearItems(w: World, items: seq<Value>, schema: Schema, segments: seq<string>, foreignKey: bool):
    (cleared: Result<seq<Value>, ClearError>)
    requires segments != []
    ensures cleared.Ok? ==> |cleared.value| == |items|
    decreases items
  {
    if items == [] then Ok([])
    else
      var first :- ClearAt(w, items[0], schema, segments, foreignKey);
      var rest :- ClearItems(w, items[1..], schema, segments, foreignKey);
      Ok([first] + rest)
  }

  /** The clears one after the other. */
  function ClearSequence(w: World, v: Value, schema: Schema, clears: seq<Clear>): Result<Value, ClearError>
    requires forall c :: c in clears ==> c.segments != []
    decreases |clears|
  {
    if clears == [] then Ok(v)
    else
      var before :- ClearSequence(w, v, schema, clears[..|clears| - 1]);
      var c := clears[|clears| - 1];
      ClearAt(w, before, schema, c.segments, c.foreignKey)
  }

  // ----- all clears at once ------------------------------------------------------------------

  ghost predicate SchemaSound(s: Schema) {
    && (forall r, q :: r in s.relationships && q in s.relationships && r != q ==>
          s.relationships[r].fieldIndex != s.relationships[q].fieldIndex)
    && (forall r, name :: r in s.relationships ==> ColumnByName(s.columns, name) != Some(s.relationships[r].fieldIndex))
  }

  /** Relations have fields of their own, distinct from each other and from the columns. */
  ghost predicate Sound(w: World, schema: Schema) {
    SchemaSound(schema) && forall id :: id in w.schemas ==> SchemaSound(w.schemas[id])
  }

  /** A clear ends at the relation stored at this index. */
  ghost predicate ClearsRelation(schema: Schema, clears: set<Clear>, index: Index) {
    exists c :: c in clears && |c.segments| == 1 && c.segments[0] in schema.relationships
      && schema.relationships[c.segments[0]].fieldIndex == index
  }

  /** A null ends at a belongs-to relation whose foreign key is stored at this index. */
  ghost predicate ClearsForeignKey(schema: Schema, clears: set<Clear>, index: Index) {
    exists c :: c in clears && |c.segments| == 1 && c.foreignKey && c.segments[0] in schema.relationships
      && schema.relationships[c.segments[0]].kind == BelongsTo
      && ColumnByName(schema.columns, schema.relationships[c.segments[0]].foreignKey) == Some(index)
  }

  ghost predicate Emptied(schema: Schema, clears: set<Clear>, index: Index) {
    ClearsRelation(schema, clears, index) || ClearsForeignKey(schema, clears, index)
  }

  /** What remains of the clears below a relation. */
  ghost function Below(clears: set<Clear>, relation: string): set<Clear> {
    set c | c in clears && |c.segments| > 1 && c.segments[0] == relation :: Clear(c.segments[1..], c.foreignKey)
  }

  /** The relation stored at an index, with its schema, if there is one. */
  ghost function RelationAt(w: World, schema: Schema, index: Index): (found: Option<(string, Schema)>)
    ensures found.Some? ==>
      && found.value.0 in schema.relationships
      && schema.relationships[found.value.0].fieldIndex == index
      && schema.relationships[found.value.0].relatedSchema.Some?
      && schema.relationships[found.value.0].relatedSchema.value in w.schemas
      && found.value.1 == w.schemas[schema.relationships[found.value.0].relatedSchema.value]
  {
    if r :| r in schema.relationships && schema.relationships[r].fieldIndex == index
            && schema.relationships[r].relatedSchema.Some? && schema.relationships[r].relatedSchema.value in w.schemas
    then Some((r, w.schemas[schema.relationships[r].relatedSchema.value]))
    else None
  }

  /** Every clear applied at once: on each struct reached, the relations and foreign keys the
      clears end at are emptied, the clears below a relation go on in its value, and everything
      else is kept. */
  ghost function NormalizeAll(w: World, v: Value, schema: Schema, clears: set<Clear>): Value
    decreases v
  {
    match v
    case Nil => v
    case Scalar(_) => v
    case Ptr(to) => Ptr(NormalizeAll(w, to, schema, clears))
    case Elems(items) =>
      Elems(seq(|items|, i requires 0 <= i < |items| => NormalizeAll(w, items[i], schema, clears)))
    case Record(fields) =>
      Record(map index | index in fields ::
               fields[index].(value := NormalizeSlot(w, fields[index], schema, clears, index)))
  }

  ghost function NormalizeSlot(w: World, slot: Slot, schema: Schema, clears: set<Clear>, index: Index): Value
    decreases slot
  {
    if Emptied(schema, clears, index) then ClearedValue(slot)
    else
      var relation := RelationAt(w, schema, index);
      if relation.Some? then NormalizeAll(w, slot.value, relation.value.1, Below(clears, relation.value.0))
        else slot.value
  }

  ghost predicate NonEmpty(clears: set<Clear>) {
    forall c :: c in clears ==> c.segments != []
  }

  /** No clear lies below another one. */
  ghost predicate Antichain(clears: set<Clear>) {
    NonEmpty(clears) && forall c, d :: c in clears && d in clears ==> !(c.segments < d.segments)
  }

  lemma BelowAntichain(clears: set<Clear>, relation: string)
    requires Antichain(clears)
    ensures Antichain(Below(clears, relation))
  {
  }

  lemma BelowOrigin(clears: set<Clear>, relation: string, c: Clear)
    ensures c in Below(clears, relation) <==> c.segments != [] && Clear([relation] + c.segments, c.foreignKey) in clears
  {
    var full := Clear([relation] + c.segments, c.foreignKey);
    assert full.segments[1..] == c.segments;
    if c in Below(clears, relation) {
      var d :| d in clears && |d.segments| > 1 && d.segments[0] == relation
        && c == Clear(d.segments[1..], d.foreignKey);
      assert d.segments == [relation] + c.segments;
    }
  }

  lemma BelowAdd(clears: set<Clear>, c: Clear, relation: string)
    requires c.segments != []
    ensures Below(clears + {c}, relation) ==
      if |c.segments| > 1 && c.segments[0] == relation
      then Below(clears, relation) + {Clear(c.segments[1..], c.foreignKey)} else Below(clears, relation)
  {
  }

  lemma {:induction false} NormalizeNothing(w: World, v: Value, schema: Schema)
    ensures NormalizeAll(w, v, schema, {}) == v
    decreases v
  {
    match v {
      case Ptr(to) => NormalizeNothing(w, to, schema);
      case Elems(items) =>
        forall i | 0 <= i < |items| ensures NormalizeAll(w, items[i], schema, {}) == items[i] {
          NormalizeNothing(w, items[i], schema);
        }
        assert NormalizeAll(w, v, schema, {}).items == items;
      case Record(fields) =>
        forall index | index in fields ensures NormalizeAll(w, v, schema, {}).fields[index] == fields[index] {
          var relation := RelationAt(w, schema, index);
          if relation.Some? {
            assert Below({}, relation.value.0) == {};
            NormalizeNothing(w, fields[index].value, relation.value.1);
          }
        }
        assert NormalizeAll(w, v, schema, {}).fields == fields;
      case _ =>
    }
  }

  lemma {:induction false} ClearItemsAt(w: World, items: seq<Value>, schema: Schema, c: Clear, i: nat)
    requires c.segments != [] && i < |items|
    requires ClearItems(w, items, schema, c.segments, c.foreignKey).Ok?
    ensures ClearAt(w, items[i], schema, c.segments, c.foreignKey) ==
      Ok(ClearItems(w, items, schema, c.segments, c.foreignKey).value[i])
    decreases i
  {
    if i > 0 {
      ClearItemsAt(w, items[1..], schema, c, i - 1);
    }
  }

  /** Clearing one more relation, none of whose ancestors were cleared, is the same as having it
      in the set from the start. */
  lemma {:induction false} ClearOneMore(w: World, v: Value, schema: Schema, clears: set<Clear>, c: Clear)
    requires Sound(w, schema) && Antichain(clears + {c})
    requires ClearAt(w, NormalizeAll(w, v, schema, clears), schema, c.segments, c.foreignKey).Ok?
    ensures ClearAt(w, NormalizeAll(w, v, schema, clears), schema, c.segments, c.foreignKey).value ==
            NormalizeAll(w, v, schema, clears + {c})
    decreases v
  {
    match v {
      case Ptr(to) => ClearOneMore(w, to, schema, clears, c);
      case Elems(items) =>
        var normalized := NormalizeAll(w, v, schema, clears).items;
        var cleared := ClearItems(w, normalized, schema, c.segments, c.foreignKey).value;
        forall i | 0 <= i < |items| ensures cleared[i] == NormalizeAll(w, items[i], schema, clears + {c}) {
          ClearItemsAt(w, normalized, schema, c, i);
          ClearOneMore(w, items[i], schema, clears, c);
        }
        assert cleared == NormalizeAll(w, v, schema, clears + {c}).items;
      case Record(fields) => ClearRecord(w, fields, schema, clears, c);
      case _ =>
    }
  }

  /** What one more clear adds to the fields that are emptied on a struct. */
  lemma EmptiedAdd(schema: Schema, clears: set<Clear>, c: Clear, index: Index)
    requires c.segments != []
    ensures Emptied(schema, clears + {c}, index) <==> Emptied(schema, clears, index) || Emptied(schema, {c}, index)
  {
  }

  predicate EmptiedBy(schema: Schema, relation: Relation, foreignKey: bool, index: Index) {
    || index == relation.fieldIndex
    || (foreignKey && relation.kind == BelongsTo && ColumnByName(schema.columns, relation.foreignKey) == Some(index))
  }

  lemma EmptiedByOne(schema: Schema, c: Clear, index: Index)
    requires |c.segments| == 1 && c.segments[0] in schema.relationships
    ensures Emptied(schema, {c}, index) <==> EmptiedBy(schema, schema.relationships[c.segments[0]], c.foreignKey, index)
  {
  }

  lemma ClearLastEffect(fields: map<Index, Slot>, schema: Schema, relation: Relation, foreignKey: bool)
    requires ClearLast(fields, schema, relation, foreignKey).Ok?
    ensures var cleared := ClearLast(fields, schema, relation, foreignKey).value;
            && cleared.Keys == fields.Keys
            && forall index :: index in fields ==>
                 cleared[index] == if EmptiedBy(schema, relation, foreignKey, index)
                                   then fields[index].(value := ClearedValue(fields[index])) else fields[index]
  {
  }

  /** A relation with a clear below it is not emptied itself. */
  lemma NotEmptied(schema: Schema, clears: set<Clear>, c: Clear)
    requires SchemaSound(schema) && Antichain(clears + {c}) && |c.segments| > 1 && c.segments[0] in schema.relationships
    ensures !Emptied(schema, clears + {c}, schema.relationships[c.segments[0]].fieldIndex)
  {
  }

  /** A clear that neither empties a field nor goes below it does not change it. */
  lemma SlotUnaffected(w: World, slot: Slot, schema: Schema, clears: set<Clear>, c: Clear, index: Index)
    requires c.segments != [] && !Emptied(schema, {c}, index)
    requires |c.segments| > 1 && c.segments[0] in schema.relationships ==>
      schema.relationships[c.segments[0]].fieldIndex != index
    ensures NormalizeSlot(w, slot, schema, clears + {c}, index) == NormalizeSlot(w, slot, schema, clears, index)
  {
    hide NormalizeAll;
    EmptiedAdd(schema, clears, c, index);
    var relation := RelationAt(w, schema, index);
    if relation.Some? {
      BelowAdd(clears, c, relation.value.0);
    }
  }

  lemma ClearHere(w: World, fields: map<Index, Slot>, schema: Schema, clears: set<Clear>, c: Clear)
    requires |c.segments| == 1
    requires ClearAt(w, NormalizeAll(w, Record(fields), schema, clears), schema, c.segments, c.foreignKey).Ok?
    ensures ClearAt(w, NormalizeAll(w, Record(fields), schema, clears), schema, c.segments, c.foreignKey).value ==
            NormalizeAll(w, Record(fields), schema, clears + {c})
  {
    var before := NormalizeAll(w, Record(fields), schema, clears);
    var after := NormalizeAll(w, Record(fields), schema, clears + {c});
    var cleared := ClearAt(w, before, schema, c.segments, c.foreignKey).value;
    ClearLastEffect(before.fields, schema, schema.relationships[c.segments[0]], c.foreignKey);
    hide NormalizeSlot, ClearLast, Emptied, ClearAt;
    forall index | index in fields ensures cleared.fields[index] == after.fields[index] {
      EmptiedByOne(schema, c, index);
      EmptiedAdd(schema, clears, c, index);
      if Emptied(schema, {c}, index) {
        EmptiedSlot(w, fields[index], schema, clears + {c}, index);
      } else {
        SlotUnaffected(w, fields[index], schema, clears, c, index);
      }
    }
    assert cleared.fields == after.fields;
  }

  lemma EmptiedSlot(w: World, slot: Slot, schema: Schema, clears: set<Clear>, index: Index)
    requires Emptied(schema, clears, index)
    ensures NormalizeSlot(w, slot, schema, clears, index) == ClearedValue(slot)
  {
  }

  lemma {:induction false} ClearRecord(w: World, fields: map<Index, Slot>, schema: Schema, clears: set<Clear>, c: Clear)
    requires Sound(w, schema) && Antichain(clears + {c})
    requires ClearAt(w, NormalizeAll(w, Record(fields), schema, clears), schema, c.segments, c.foreignKey).Ok?
    ensures ClearAt(w, NormalizeAll(w, Record(fields), schema, clears), schema, c.segments, c.foreignKey).value ==
            NormalizeAll(w, Record(fields), schema, clears + {c})
    decreases Record(fields), 1
  {
    assert c in clears + {c};
    if |c.segments| == 1 {
      ClearHere(w, fields, schema, clears, c);
    } else {
      ClearBelow(w, fields, schema, clears, c);
    }
  }

  lemma {:induction false} ClearBelow(w: World, fields: map<Index, Slot>, schema: Schema, clears: set<Clear>, c: Clear)
    requires Sound(w, schema) && Antichain(clears + {c}) && |c.segments| > 1
    requires ClearAt(w, NormalizeAll(w, Record(fields), schema, clears), schema, c.segments, c.foreignKey).Ok?
    ensures ClearAt(w, NormalizeAll(w, Record(fields), schema, clears), schema, c.segments, c.foreignKey).value ==
            NormalizeAll(w, Record(fields), schema, clears + {c})
    decreases Record(fields), 0
  {
    hide NormalizeSlot, Emptied, Sound, Antichain;
    var before := NormalizeAll(w, Record(fields), schema, clears).fields;
    var after := NormalizeAll(w, Record(fields), schema, clears + {c}).fields;
    var at := schema.relationships[c.segments[0]].fieldIndex;
    SlotBelow(w, fields[at], schema, clears, c);
    hide ClearAt;
    forall index | index in fields && index != at ensures before[index] == after[index] {
      EmptiedByNone(schema, c, index);
      SlotUnaffected(w, fields[index], schema, clears, c, index);
    }
    assert before[at := after[at]] == after;
  }

  lemma EmptiedByNone(schema: Schema, c: Clear, index: Index)
    requires |c.segments| > 1
    ensures !Emptied(schema, {c}, index)
  {
  }

  lemma {:induction false} SlotBelow(w: World, slot: Slot, schema: Schema, clears: set<Clear>, c: Clear)
    requires Sound(w, schema) && Antichain(clears + {c}) && |c.segments| > 1 && c.segments[0] in schema.relationships
    requires var r := schema.relationships[c.segments[0]]; r.relatedSchema.Some? && r.relatedSchema.value in w.schemas
    requires var r := schema.relationships[c.segments[0]];
             ClearAt(w, NormalizeSlot(w, slot, schema, clears, r.fieldIndex), w.schemas[r.relatedSchema.value],
               c.segments[1..], c.foreignKey).Ok?
    ensures var r := schema.relationships[c.segments[0]];
            ClearAt(w, NormalizeSlot(w, slot, schema, clears, r.fieldIndex), w.schemas[r.relatedSchema.value],
              c.segments[1..], c.foreignKey).value
            == NormalizeSlot(w, slot, schema, clears + {c}, r.fieldIndex)
    decreases slot, 0
  {
    var at := schema.relationships[c.segments[0]].fieldIndex;
    var below := RelationAt(w, schema, at).value;
    assert below.0 == c.segments[0];
    NotEmptied(schema, clears, c);
    EmptiedAdd(schema, clears, c, at);
    BelowAdd(clears, c, c.segments[0]);
    BelowAntichain(clears + {c}, c.segments[0]);
    ClearOneMore(w, slot.value, below.1, Below(clears, c.segments[0]), Clear(c.segments[1..], c.foreignKey));
  }

  // ----- the clears in any order ---------------------------------------------------------------

  ghost function AsSet(clears: seq<Clear>): set<Clear> {
    set c | c in clears
  }

  /** Clearing the relations one after the other has the effect of clearing them all at once. */
  lemma {:induction false} SequenceIsSimultaneous(w: World, v: Value, schema: Schema, clears: seq<Clear>)
    requires Sound(w, schema) && Antichain(AsSet(clears)) && NonEmptyAll(clears)
    requires ClearSequence(w, v, schema, clears).Ok?
    ensures ClearSequence(w, v, schema, clears).value == NormalizeAll(w, v, schema, AsSet(clears))
    decreases |clears|
  {
    if clears == [] {
      NormalizeNothing(w, v, schema);
      assert AsSet([]) == {};
    } else {
      var init, last := clears[..|clears| - 1], clears[|clears| - 1];
      assert clears == init + [last];
      assert AsSet(clears) == AsSet(init) + {last};
      SequenceIsSimultaneous(w, v, schema, init);
      ClearOneMore(w, v, schema, AsSet(init), last);
    }
  }

  ghost predicate NonEmptyAll(clears: seq<Clear>) {
    forall c :: c in clears ==> c.segments != []
  }

  lemma {:induction false} ClearItemsOk(w: World, items: seq<Value>, schema: Schema, c: Clear)
    requires c.segments != []
    ensures ClearItems(w, items, schema, c.segments, c.foreignKey).Ok? <==>
      forall i :: 0 <= i < |items| ==> ClearAt(w, items[i], schema, c.segments, c.foreignKey).Ok?
    decreases items
  {
    if items != [] {
      ClearItemsOk(w, items[1..], schema, c);
      assert forall i :: 1 <= i < |items| ==> items[i] == items[1..][i - 1];
    }
  }

  /** A clear succeeds after incomparable clears exactly when it succeeds before them. */
  lemma {:induction false} ClearStaysOk(w: World, v: Value, schema: Schema, clears: set<Clear>, c: Clear)
    requires Sound(w, schema) && Antichain(clears + {c}) && c.segments != []
    ensures ClearAt(w, NormalizeAll(w, v, schema, clears), schema, c.segments, c.foreignKey).Ok? <==>
            ClearAt(w, v, schema, c.segments, c.foreignKey).Ok?
    decreases v
  {
    match v {
      case Ptr(to) => ClearStaysOk(w, to, schema, clears, c);
      case Elems(items) =>
        var normalized := NormalizeAll(w, v, schema, clears).items;
        ClearItemsOk(w, items, schema, c);
        ClearItemsOk(w, normalized, schema, c);
        forall i | 0 <= i < |items|
          ensures ClearAt(w, normalized[i], schema, c.segments, c.foreignKey).Ok? <==>
            ClearAt(w, items[i], schema, c.segments, c.foreignKey).Ok?
        {
          ClearStaysOk(w, items[i], schema, clears, c);
        }
      case Record(fields) =>
        if |c.segments| == 1 {
          ClearHereOk(w, fields, schema, clears, c);
        } else {
          ClearBelowOk(w, fields, schema, clears, c);
        }
      case _ =>
    }
  }

  lemma ClearHereOk(w: World, fields: map<Index, Slot>, schema: Schema, clears: set<Clear>, c: Clear)
    requires |c.segments| == 1
    ensures ClearAt(w, NormalizeAll(w, Record(fields), schema, clears), schema, c.segments, c.foreignKey).Ok? <==>
            ClearAt(w, Record(fields), schema, c.segments, c.foreignKey).Ok?
  {
  }

  lemma {:induction false} ClearBelowOk(w: World, fields: map<Index, Slot>, schema: Schema, clears: set<Clear>,
                                        c: Clear)
    requires Sound(w, schema) && Antichain(clears + {c}) && |c.segments| > 1
    ensures ClearAt(w, NormalizeAll(w, Record(fields), schema, clears), schema, c.segments, c.foreignKey).Ok? <==>
            ClearAt(w, Record(fields), schema, c.segments, c.foreignKey).Ok?
    decreases Record(fields), 0
  {
    if c.segments[0] in schema.relationships {
      var r := schema.relationships[c.segments[0]];
      if r.fieldIndex in fields && r.relatedSchema.Some? && r.relatedSchema.value in w.schemas {
        NotEmptied(schema, clears, c);
        EmptiedAdd(schema, clears, c, r.fieldIndex);
        assert RelationAt(w, schema, r.fieldIndex).value.0 == c.segments[0];
        BelowAdd(clears, c, c.segments[0]);
        BelowAntichain(clears + {c}, c.segments[0]);
        ClearStaysOk(w, fields[r.fieldIndex].value, w.schemas[r.relatedSchema.value],
                     Below(clears, c.segments[0]), Clear(c.segments[1..], c.foreignKey));
        hide Emptied, Antichain, Sound, Below;
        assert NormalizeAll(w, Record(fields), schema, clears).fields[r.fieldIndex].value ==
               NormalizeAll(w, fields[r.fieldIndex].value, w.schemas[r.relatedSchema.value],
                 Below(clears, c.segments[0]));
      }
    }
  }

  lemma {:induction false} SequenceOk(w: World, v: Value, schema: Schema, clears: seq<Clear>)
    requires Sound(w, schema) && Antichain(AsSet(clears)) && NonEmptyAll(clears)
    ensures ClearSequence(w, v, schema, clears).Ok? <==>
      forall c :: c in clears ==> ClearAt(w, v, schema, c.segments, c.foreignKey).Ok?
    decreases |clears|
  {
    if clears != [] {
      var init, last := clears[..|clears| - 1], clears[|clears| - 1];
      assert clears == init + [last];
      assert AsSet(clears) == AsSet(init) + {last};
      SequenceOk(w, v, schema, init);
      if ClearSequence(w, v, schema, init).Ok? {
        SequenceIsSimultaneous(w, v, schema, init);
        ClearStaysOk(w, v, schema, AsSet(init), last);
      }
    }
  }

  /** The order of the clears does not matter, nor how often each is done: not for the outcome
      and not for the entity. */
  lemma OrderDoesNotMatter(w: World, v: Value, schema: Schema, clears: seq<Clear>, permuted: seq<Clear>)
    requires Sound(w, schema) && NonEmptyAll(clears) && NonEmptyAll(permuted)
    requires AsSet(clears) == AsSet(permuted) && Antichain(AsSet(clears))
    ensures ClearSequence(w, v, schema, clears).Ok? <==> ClearSequence(w, v, schema, permuted).Ok?
    ensures ClearSequence(w, v, schema, clears).Ok? ==>
      ClearSequence(w, v, schema, clears) == ClearSequence(w, v, schema, permuted)
  {
    SequenceOk(w, v, schema, clears);
    SequenceOk(w, v, schema, permuted);
    assert forall c :: c in clears <==> c in AsSet(clears);
    assert forall c :: c in permuted <==> c in AsSet(permuted);
    if ClearSequence(w, v, schema, clears).Ok? {
      SequenceIsSimultaneous(w, v, schema, clears);
      SequenceIsSimultaneous(w, v, schema, permuted);
    }
  }

  lemma {:induction false} SequenceAppend(w: World, v: Value, schema: Schema, a: seq<Clear>, b: seq<Clear>)
    requires NonEmptyAll(a) && NonEmptyAll(b) && ClearSequence(w, v, schema, a).Ok?
    ensures ClearSequence(w, v, schema, a + b) == ClearSequence(w, ClearSequence(w, v, schema, a).value, schema, b)
    decreases |b|
  {
    if b == [] {
      assert a + b == a;
    } else {
      assert (a + b)[..|a + b| - 1] == a + b[..|b| - 1];
      SequenceAppend(w, v, schema, a, b[..|b| - 1]);
    }
  }

  /** Normalizing a normalized entity again changes nothing. */
  lemma NormalizeIdempotent(w: World, v: Value, schema: Schema, clears: seq<Clear>)
    requires Sound(w, schema) && NonEmptyAll(clears) && Antichain(AsSet(clears))
    requires ClearSequence(w, v, schema, clears).Ok?
    ensures var once := ClearSequence(w, v, schema, clears).value; ClearSequence(w, once, schema, clears) == Ok(once)
  {
    assert AsSet(clears + clears) == AsSet(clears);
    OrderDoesNotMatter(w, v, schema, clears, clears + clears);
    SequenceAppend(w, v, schema, clears, clears);
  }

  lemma SequencePair(w: World, v: Value, schema: Schema, c: Clear, d: Clear)
    requires c.segments != [] && d.segments != []
    ensures ClearSequence(w, v, schema, [c, d]) ==
      match ClearAt(w, v, schema, c.segments, c.foreignKey)
      case Ok(between) => ClearAt(w, between, schema, d.segments, d.foreignKey)
      case Err(e) => Err(e)
  {
    assert [c, d][..1] == [c] && [c][..0] == [];
    assert ClearSequence(w, v, schema, [c]) == ClearAt(w, v, schema, c.segments, c.foreignKey);
  }

  // ----- every parent --------------------------------------------------------------------------

  /** `parent` is a struct reached by following relations through pointers and slices. */
  ghost predicate Reached(w: World, v: Value, schema: Schema, path: seq<string>, parent: Value, parentSchema: Schema)
    decreases v
  {
    match v
    case Nil => false
    case Scalar(_) => false
    case Ptr(to) => Reached(w, to, schema, path, parent, parentSchema)
    case Elems(items) => exists i :: 0 <= i < |items| && Reached(w, items[i], schema, path, parent, parentSchema)
    case Record(fields) =>
      if path == [] then v == parent && schema == parentSchema
      else
        && path[0] in schema.relationships
        && var r := schema.relationships[path[0]];
        && r.fieldIndex in fields && r.relatedSchema.Some? && r.relatedSchema.value in w.schemas
        && Reached(w, fields[r.fieldIndex].value, w.schemas[r.relatedSchema.value], path[1..], parent, parentSchema)
  }

  ghost function BelowPath(clears: set<Clear>, path: seq<string>): set<Clear>
    decreases path
  {
    if path == [] then clears else BelowPath(Below(clears, path[0]), path[1..])
  }

  /** Every struct reached in the normalized entity, by a path with no clear at or above it, is a
      struct reached by that path before, normalized by exactly the clears below the path. */
  lemma {:induction false} ParentsNormalized(w: World, v: Value, schema: Schema, clears: set<Clear>, path: seq<string>,
                                             parent: Value, parentSchema: Schema) returns (before: Value)
    requires Sound(w, schema)
    requires forall c :: c in clears ==> c.segments != [] && !(c.segments <= path)
    requires Reached(w, NormalizeAll(w, v, schema, clears), schema, path, parent, parentSchema)
    ensures Reached(w, v, schema, path, before, parentSchema)
    ensures parent == NormalizeAll(w, before, parentSchema, BelowPath(clears, path))
    decreases v
  {
    match v {
      case Ptr(to) => before := ParentsNormalized(w, to, schema, clears, path, parent, parentSchema);
      case Elems(items) =>
        var normalized := NormalizeAll(w, v, schema, clears).items;
        var i :| 0 <= i < |normalized| && Reached(w, normalized[i], schema, path, parent, parentSchema);
        before := ParentsNormalized(w, items[i], schema, clears, path, parent, parentSchema);
      case Record(fields) =>
        if path == [] {
          before := v;
        } else {
          var r := schema.relationships[path[0]];
          NotEmptiedAbove(schema, clears, path);
          var relation := RelationAt(w, schema, r.fieldIndex).value;
          assert relation.0 == path[0];
          var below := Below(clears, path[0]);
          forall c | c in below ensures c.segments != [] && !(c.segments <= path[1..]) {
            BelowOrigin(clears, path[0], c);
            PrefixCons(c.segments, path);
          }
          assert NormalizeAll(w, v, schema, clears).fields[r.fieldIndex].value ==
                 NormalizeAll(w, fields[r.fieldIndex].value, relation.1, below);
          before := ParentsNormalized(w, fields[r.fieldIndex].value, relation.1, below, path[1..], parent,
            parentSchema);
        }
    }
  }

  /** And every struct reached before by such a path is still reached, so normalized. */
  lemma {:induction false} ParentsKept(w: World, v: Value, schema: Schema, clears: set<Clear>, path: seq<string>,
                                       before: Value, parentSchema: Schema)
    requires Sound(w, schema)
    requires forall c :: c in clears ==> c.segments != [] && !(c.segments <= path)
    requires Reached(w, v, schema, path, before, parentSchema)
    ensures Reached(w, NormalizeAll(w, v, schema, clears), schema, path,
                    NormalizeAll(w, before, parentSchema, BelowPath(clears, path)), parentSchema)
    decreases v
  {
    match v {
      case Ptr(to) => ParentsKept(w, to, schema, clears, path, before, parentSchema);
      case Elems(items) =>
        var i :| 0 <= i < |items| && Reached(w, items[i], schema, path, before, parentSchema);
        ParentsKept(w, items[i], schema, clears, path, before, parentSchema);
        assert NormalizeAll(w, v, schema, clears).items[i] == NormalizeAll(w, items[i], schema, clears);
      case Record(fields) =>
        if path != [] {
          var r := schema.relationships[path[0]];
          NotEmptiedAbove(schema, clears, path);
          var relation := RelationAt(w, schema, r.fieldIndex).value;
          assert relation.0 == path[0];
          var below := Below(clears, path[0]);
          forall c | c in below ensures c.segments != [] && !(c.segments <= path[1..]) {
            BelowOrigin(clears, path[0], c);
            PrefixCons(c.segments, path);
          }
          assert NormalizeAll(w, v, schema, clears).fields[r.fieldIndex].value ==
                 NormalizeAll(w, fields[r.fieldIndex].value, relation.1, below);
          ParentsKept(w, fields[r.fieldIndex].value, relation.1, below, path[1..], before, parentSchema);
        }
    }
  }

  lemma PrefixCons(a: seq<string>, path: seq<string>)
    requires path != []
    ensures a <= path[1..] ==> [path[0]] + a <= path
  {
  }

  lemma NotEmptiedAbove(schema: Schema, clears: set<Clear>, path: seq<string>)
    requires SchemaSound(schema) && path != [] && path[0] in schema.relationships
    requires forall c :: c in clears ==> c.segments != [] && !(c.segments <= path)
    ensures !Emptied(schema, clears, schema.relationships[path[0]].fieldIndex)
  {
  }

  lemma {:induction false} BelowPathLast(clears: set<Clear>, path: seq<string>, relation: string, foreignKey: bool)
    requires Clear(path + [relation], foreignKey) in clears
    ensures Clear([relation], foreignKey) in BelowPath(clears, path)
    decreases path
  {
    if path == [] {
      assert path + [relation] == [relation];
    } else {
      assert [path[0]] + (path[1..] + [relation]) == path + [relation];
      BelowOrigin(clears, path[0], Clear(path[1..] + [relation], foreignKey));
      BelowPathLast(Below(clears, path[0]), path[1..], relation, foreignKey);
    }
  }

  /** The first column with a name. */
  ghost predicate FirstNamed(columns: seq<Column>, name: string, k: int) {
    0 <= k < |columns| && columns[k].name == name && forall j :: 0 <= j < k ==> columns[j].name != name
  }

  lemma {:induction false} ColumnByNameIsFirst(columns: seq<Column>, name: string, k: int)
    requires FirstNamed(columns, name, k)
    ensures ColumnByName(columns, name) == Some(columns[k].fieldIndex)
    decreases k
  {
    if k > 0 {
      forall j | 0 <= j < k - 1 ensures columns[1..][j].name != name {
        assert columns[1..][j] == columns[j + 1];
      }
      ColumnByNameIsFirst(columns[1..], name, k - 1);
    }
  }

  lemma {:induction false} ColumnByNameFinds(columns: seq<Column>, name: string) returns (k: nat)
    requires ColumnByName(columns, name).Some?
    ensures FirstNamed(columns, name, k)
  {
    if columns[0].name == name {
      k := 0;
    } else {
      var j := ColumnByNameFinds(columns[1..], name);
      k := j + 1;
      assert forall i :: 1 <= i < k ==> columns[i] == columns[1..][i - 1];
    }
  }

  /** A clear empties its relation on every parent reached, and its foreign key for a null
      belongs-to relation: a slice becomes an empty slice, anything else its type's zero. */
  lemma ClearedOnEveryParent(w: World, v: Value, schema: Schema, clears: set<Clear>, path: seq<string>,
                             relation: string, foreignKey: bool, parent: Value, parentSchema: Schema)
    requires Sound(w, schema) && Antichain(clears) && Clear(path + [relation], foreignKey) in clears
    requires Reached(w, NormalizeAll(w, v, schema, clears), schema, path, parent, parentSchema)
    requires relation in parentSchema.relationships
    ensures parent.Record?
    ensures var at := parentSchema.relationships[relation].fieldIndex;
            at in parent.fields ==>
              parent.fields[at].value == if parent.fields[at].isSlice then Elems([]) else parent.fields[at].zero
    ensures foreignKey && parentSchema.relationships[relation].kind == BelongsTo ==>
      forall k :: FirstNamed(parentSchema.columns, parentSchema.relationships[relation].foreignKey, k) ==>
        var at := parentSchema.columns[k].fieldIndex;
        at in parent.fields ==>
          parent.fields[at].value == if parent.fields[at].isSlice then Elems([]) else parent.fields[at].zero
  {
    forall c | c in clears ensures c.segments != [] && !(c.segments <= path) {
      assert c.segments <= path ==> c.segments < path + [relation];
    }
    var before := ParentsNormalized(w, v, schema, clears, path, parent, parentSchema);
    BelowPathLast(clears, path, relation, foreignKey);
    ReachedIsRecord(w, v, schema, path, before, parentSchema);
    var c := Clear([relation], foreignKey);
    hide NormalizeSlot, Antichain, Reached, Sound;
    forall index | index in parent.fields
      && EmptiedBy(parentSchema, parentSchema.relationships[relation], foreignKey, index)
      ensures parent.fields[index].value ==
              if parent.fields[index].isSlice then Elems([]) else parent.fields[index].zero
    {
      EmptiedByOne(parentSchema, c, index);
      EmptiedAdd(parentSchema, BelowPath(clears, path), c, index);
      assert BelowPath(clears, path) + {c} == BelowPath(clears, path);
      EmptiedSlot(w, before.fields[index], parentSchema, BelowPath(clears, path), index);
    }
    forall k | FirstNamed(parentSchema.columns, parentSchema.relationships[relation].foreignKey, k)
      ensures ColumnByName(parentSchema.columns, parentSchema.relationships[relation].foreignKey) ==
              Some(parentSchema.columns[k].fieldIndex)
    {
      ColumnByNameIsFirst(parentSchema.columns, parentSchema.relationships[relation].foreignKey, k);
    }
  }

  // ----- when a clear succeeds -------------------------------------------------------------------

  /** One step of a clear fits a parent: the relation is in the schema and its field is there. On the way
      the related schema is known; at the end the field can be set, and so can, for a null belongs-to, the
      field of the foreign key's column. */
  ghost predicate Fits(w: World, parent: Value, schema: Schema, relation: string, last: bool, foreignKey: bool) {
    && parent.Record? && relation in schema.relationships
    && var r := schema.relationships[relation];
    && r.fieldIndex in parent.fields
    && if !last then r.relatedSchema.Some? && r.relatedSchema.value in w.schemas
       else
         && parent.fields[r.fieldIndex].settable
         && (foreignKey && r.kind == BelongsTo ==>
               exists k :: FirstNamed(schema.columns, r.foreignKey, k) && schema.columns[k].fieldIndex in parent.fields
                 && parent.fields[schema.columns[k].fieldIndex].settable)
  }

  /** Every step fits every parent reached by the steps before it. */
  ghost predicate Clearable(w: World, v: Value, schema: Schema, segments: seq<string>, foreignKey: bool) {
    forall n, parent, parentSchema ::
      0 <= n < |segments| && Reached(w, v, schema, segments[..n], parent, parentSchema) ==>
        Fits(w, parent, parentSchema, segments[n], n == |segments| - 1, foreignKey)
  }

  lemma {:induction false} ClearSucceeds(w: World, v: Value, schema: Schema, segments: seq<string>, foreignKey: bool)
    requires segments != []
    ensures ClearAt(w, v, schema, segments, foreignKey).Ok? <==> Clearable(w, v, schema, segments, foreignKey)
    decreases v
  {
    match v {
      case Ptr(to) =>
        ClearSucceeds(w, to, schema, segments, foreignKey);
        ClearablePointer(w, to, schema, segments, foreignKey);
      case Elems(items) =>
        ClearItemsOk(w, items, schema, Clear(segments, foreignKey));
        forall i | 0 <= i < |items|
          ensures ClearAt(w, items[i], schema, segments, foreignKey).Ok? <==>
                  Clearable(w, items[i], schema, segments, foreignKey)
        {
          ClearSucceeds(w, items[i], schema, segments, foreignKey);
        }
        ClearableItems(w, items, schema, segments, foreignKey);
      case Record(fields) =>
        FitsFirst(w, fields, schema, segments, foreignKey);
        if |segments| > 1 && Fits(w, v, schema, segments[0], false, foreignKey) {
          var r := schema.relationships[segments[0]];
          ClearSucceeds(w, fields[r.fieldIndex].value, w.schemas[r.relatedSchema.value], segments[1..], foreignKey);
        }
        ClearableRecord(w, fields, schema, segments, foreignKey);
      case _ =>
    }
  }

  lemma ClearablePointer(w: World, to: Value, schema: Schema, segments: seq<string>, foreignKey: bool)
    ensures Clearable(w, Ptr(to), schema, segments, foreignKey) <==> Clearable(w, to, schema, segments, foreignKey)
  {
    hide Fits;
    forall n, parent, ps | 0 <= n < |segments|
      ensures Reached(w, Ptr(to), schema, segments[..n], parent, ps) <==>
        Reached(w, to, schema, segments[..n], parent, ps)
    {
    }
  }

  lemma ClearableItems(w: World, items: seq<Value>, schema: Schema, segments: seq<string>, foreignKey: bool)
    ensures Clearable(w, Elems(items), schema, segments, foreignKey) <==>
      forall i :: 0 <= i < |items| ==> Clearable(w, items[i], schema, segments, foreignKey)
  {
    hide Fits;
    if Clearable(w, Elems(items), schema, segments, foreignKey) {
      forall i | 0 <= i < |items| ensures Clearable(w, items[i], schema, segments, foreignKey) {
        forall n, parent, ps | 0 <= n < |segments| && Reached(w, items[i], schema, segments[..n], parent, ps)
          ensures Fits(w, parent, ps, segments[n], n == |segments| - 1, foreignKey)
        {
          assert Reached(w, Elems(items), schema, segments[..n], parent, ps);
        }
      }
    }
    if forall i :: 0 <= i < |items| ==> Clearable(w, items[i], schema, segments, foreignKey) {
      forall n, parent, ps | 0 <= n < |segments| && Reached(w, Elems(items), schema, segments[..n], parent, ps)
        ensures Fits(w, parent, ps, segments[n], n == |segments| - 1, foreignKey)
      {
        var i :| 0 <= i < |items| && Reached(w, items[i], schema, segments[..n], parent, ps);
        assert Clearable(w, items[i], schema, segments, foreignKey);
      }
    }
  }

  /** The clear at a struct succeeds here, and below if it goes on. */
  lemma FitsFirst(w: World, fields: map<Index, Slot>, schema: Schema, segments: seq<string>, foreignKey: bool)
    requires segments != []
    ensures |segments| == 1 ==>
      (ClearAt(w, Record(fields), schema, segments, foreignKey).Ok? <==>
       Fits(w, Record(fields), schema, segments[0], true, foreignKey))
    ensures |segments| > 1 ==>
      (ClearAt(w, Record(fields), schema, segments, foreignKey).Ok? <==>
       && Fits(w, Record(fields), schema, segments[0], false, foreignKey)
       && var r := schema.relationships[segments[0]];
          ClearAt(w, fields[r.fieldIndex].value, w.schemas[r.relatedSchema.value], segments[1..], foreignKey).Ok?)
  {
    if segments[0] in schema.relationships {
      var r := schema.relationships[segments[0]];
      if ColumnByName(schema.columns, r.foreignKey).Some? {
        var k := ColumnByNameFinds(schema.columns, r.foreignKey);
        ColumnByNameIsFirst(schema.columns, r.foreignKey, k);
      }
      forall k | FirstNamed(schema.columns, r.foreignKey, k)
        ensures ColumnByName(schema.columns, r.foreignKey) == Some(schema.columns[k].fieldIndex)
      {
        ColumnByNameIsFirst(schema.columns, r.foreignKey, k);
      }
    }
  }

  lemma ClearableRecord(w: World, fields: map<Index, Slot>, schema: Schema, segments: seq<string>, foreignKey: bool)
    requires segments != []
    ensures Clearable(w, Record(fields), schema, segments, foreignKey) <==>
      && Fits(w, Record(fields), schema, segments[0], |segments| == 1, foreignKey)
      && (|segments| > 1 ==>
            var r := schema.relationships[segments[0]];
            Clearable(w, fields[r.fieldIndex].value, w.schemas[r.relatedSchema.value], segments[1..], foreignKey))
  {
    var v := Record(fields);
    if Clearable(w, v, schema, segments, foreignKey) {
      assert segments[..0] == [];
      assert Reached(w, v, schema, segments[..0], v, schema);
      if |segments| > 1 {
        var r := schema.relationships[segments[0]];
        var below, related := fields[r.fieldIndex].value, w.schemas[r.relatedSchema.value];
        hide Fits;
        forall n, parent, ps | 0 <= n < |segments| - 1 && Reached(w, below, related, segments[1..][..n], parent, ps)
          ensures Fits(w, parent, ps, segments[1..][n], n == |segments| - 2, foreignKey)
        {
          assert segments[..n + 1][0] == segments[0] && segments[..n + 1][1..] == segments[1..][..n];
          assert Reached(w, v, schema, segments[..n + 1], parent, ps);
        }
      }
    }
    if && Fits(w, v, schema, segments[0], |segments| == 1, foreignKey)
       && (|segments| > 1 ==>
             var r := schema.relationships[segments[0]];
             Clearable(w, fields[r.fieldIndex].value, w.schemas[r.relatedSchema.value], segments[1..], foreignKey))
    {
      forall n, parent, ps | 0 <= n < |segments| && Reached(w, v, schema, segments[..n], parent, ps)
        ensures Fits(w, parent, ps, segments[n], n == |segments| - 1, foreignKey)
      {
        if n == 0 {
          assert segments[..0] == [] && parent == v && ps == schema;
        } else {
          hide Fits;
          var r := schema.relationships[segments[0]];
          var below, related := fields[r.fieldIndex].value, w.schemas[r.relatedSchema.value];
          assert segments[..n][0] == segments[0] && segments[..n][1..] == segments[1..][..n - 1];
          assert Reached(w, below, related, segments[1..][..n - 1], parent, ps);
          assert segments[1..][n - 1] == segments[n];
          assert Clearable(w, below, related, segments[1..], foreignKey);
        }
      }
    }
  }

  /** A field of a reached parent that no clear ends at, and that no clear goes below, is kept. */
  lemma OtherFieldsKept(w: World, v: Value, schema: Schema, clears: set<Clear>, path: seq<string>,
                        parent: Value, parentSchema: Schema, index: Index) returns (before: Value)
    requires Sound(w, schema)
    requires forall c :: c in clears ==> c.segments != [] && !(c.segments <= path)
    requires Reached(w, NormalizeAll(w, v, schema, clears), schema, path, parent, parentSchema)
    requires !Emptied(parentSchema, BelowPath(clears, path), index)
    requires forall r :: r in parentSchema.relationships && parentSchema.relationships[r].fieldIndex == index ==>
      Below(BelowPath(clears, path), r) == {}
    ensures Reached(w, v, schema, path, before, parentSchema) && before.Record? && parent.Record?
    ensures before.fields.Keys == parent.fields.Keys
    ensures index in parent.fields ==> parent.fields[index] == before.fields[index]
  {
    hide Emptied, Below;
    before := ParentsNormalized(w, v, schema, clears, path, parent, parentSchema);
    ReachedIsRecord(w, v, schema, path, before, parentSchema);
    if index in parent.fields {
      var relation := RelationAt(w, parentSchema, index);
      if relation.Some? {
        NormalizeNothing(w, before.fields[index].value, relation.value.1);
      }
    }
  }

  lemma {:induction false} ReachedIsRecord(w: World, v: Value, schema: Schema, path: seq<string>, parent: Value,
                                           parentSchema: Schema)
    requires Reached(w, v, schema, path, parent, parentSchema)
    ensures parent.Record?
    decreases v
  {
    match v {
      case Ptr(to) => ReachedIsRecord(w, to, schema, path, parent, parentSchema);
      case Elems(items) =>
        var i :| 0 <= i < |items| && Reached(w, items[i], schema, path, parent, parentSchema);
        ReachedIsRecord(w, items[i], schema, path, parent, parentSchema);
      case Record(fields) =>
        if path != [] {
          var r := schema.relationships[path[0]];
          ReachedIsRecord(w, fields[r.fieldIndex].value, w.schemas[r.relatedSchema.value], path[1..], parent,
            parentSchema);
        }
    }
  }

  // ----- from the document to the clears -------------------------------------------------------

  /** No relation has two JSON paths. */
  ghost predicate Unambiguous(fields: map<string, string>) {
    forall key, other :: key in fields && other in fields && fields[key] == fields[other] ==> key == other
  }

  /** For each selected relation a JSON path that stands for it, if there is one. Where several do, the
      code takes the first one it meets in the map. */
  ghost predicate Picks(fields: map<string, string>, selected: seq<string>, picked: seq<Option<string>>) {
    && |picked| == |selected|
    && forall i :: 0 <= i < |selected| ==>
         if selected[i] in fields.Values
         then picked[i].Some? && picked[i].value in fields && fields[picked[i].value] == selected[i]
         else picked[i].None?
  }

  ghost function AnyPicks(fields: map<string, string>, selected: seq<string>): (picked: seq<Option<string>>)
    ensures Picks(fields, selected, picked)
  {
    if selected == [] then []
    else if selected[0] !in fields.Values then [None] + AnyPicks(fields, selected[1..])
    else
      var key :| key in fields && fields[key] == selected[0];
      [Some(key)] + AnyPicks(fields, selected[1..])
  }

  /** What the document says at a relation's JSON path, if that is null or []. */
  function ClearFor(document: PatchDocument, relation: string, key: Option<string>): seq<Clear> {
    if key.Some? && (document.IsNull(key.value) || document.IsEmptyArray(key.value))
    then [Clear(Split(relation, '.'), document.IsNull(key.value))] else []
  }

  /** The clears the document asks for among the selected relations, in order. */
  function ClearsOf(document: PatchDocument, selected: seq<string>, picked: seq<Option<string>>): (clears: seq<Clear>)
    requires |picked| == |selected|
    ensures NonEmptyAll(clears)
  {
    if selected == [] then []
    else ClearFor(document, selected[0], picked[0]) + ClearsOf(document, selected[1..], picked[1..])
  }

  lemma {:induction false} ClearsAreCleared(document: PatchDocument, fields: map<string, string>, selected: seq<string>,
                                            picked: seq<Option<string>>, c: Clear)
    requires Picks(fields, selected, picked) && c in ClearsOf(document, selected, picked)
    ensures exists relation :: c.segments == Split(relation, '.') && Cleared(document, fields, relation)
  {
    if c in ClearsOf(document, selected[1..], picked[1..]) {
      ClearsAreCleared(document, fields, selected[1..], picked[1..], c);
    } else {
      assert Cleared(document, fields, selected[0]);
    }
  }

  /** With derived JSON paths the clears of a document form an antichain. */
  lemma ClearsFormAntichain(types: InputTypes, root: PathType, syncPaths: seq<string>, fields: map<string, string>,
                            document: PatchDocument, selected: seq<string>, picked: seq<Option<string>>)
    requires types.DotFree() && Represents(types, root, syncPaths, map[], fields) && Picks(fields, selected, picked)
    ensures Antichain(AsSet(ClearsOf(document, selected, picked)))
    ensures Unambiguous(fields)
  {
    var clears := AsSet(ClearsOf(document, selected, picked));
    forall c, d | c in clears && d in clears ensures !(c.segments < d.segments) {
      hide *;
      ClearsAreCleared(document, fields, selected, picked, c);
      ClearsAreCleared(document, fields, selected, picked, d);
      var upper :| c.segments == Split(upper, '.') && Cleared(document, fields, upper);
      var lower :| d.segments == Split(lower, '.') && Cleared(document, fields, lower);
      ClearedAntichain(types, root, syncPaths, fields, document, upper, lower);
    }
    forall key, other | key in fields && other in fields && fields[key] == fields[other] ensures key == other {
      assert StandsFor(types, root, syncPaths, map[], key, fields[key]);
      assert StandsFor(types, root, syncPaths, map[], other, fields[other]);
    }
  }

  lemma NoItems(w: World, schema: Schema, segments: seq<string>, foreignKey: bool, cleared: seq<Value>)
    requires segments != []
    ensures Prepend(cleared, ClearItems(w, [], schema, segments, foreignKey)) == Ok(cleared)
  {
    assert cleared + [] == cleared;
  }

  lemma OneItem(w: World, items: seq<Value>, schema: Schema, segments: seq<string>, foreignKey: bool,
                cleared: seq<Value>)
    requires segments != [] && items != []
    ensures Prepend(cleared, ClearItems(w, items, schema, segments, foreignKey)) ==
      match ClearAt(w, items[0], schema, segments, foreignKey)
      case Err(e) => Err(e)
      case Ok(first) => Prepend(cleared + [first], ClearItems(w, items[1..], schema, segments, foreignKey))
  {
    hide ClearAt;
    var first := ClearAt(w, items[0], schema, segments, foreignKey);
    var rest := ClearItems(w, items[1..], schema, segments, foreignKey);
    assert first.Ok? && rest.Ok? ==> cleared + ([first.value] + rest.value) == (cleared + [first.value]) + rest.value;
  }

  /** `clearPatchRelationValue`, element by element on slices and arrays. */
  method ClearPatchRelationValue(w: World, v: Value, schema: Schema, segments: seq<string>, foreignKey: bool)
    returns (result: Result<Value, ClearError>)
    requires segments != []
    ensures result == ClearAt(w, v, schema, segments, foreignKey)
    decreases v
  {
    match v {
      case Nil => return Ok(v);
      case Scalar(_) => return Ok(v);
      case Ptr(to) =>
        var cleared := ClearPatchRelationValue(w, to, schema, segments, foreignKey);
        return if cleared.Ok? then Ok(Ptr(cleared.value)) else cleared;
      case Elems(items) =>
        var cleared: seq<Value> := [];
        assert items[0..] == items;
        PrependTwice([], [], ClearItems(w, items, schema, segments, foreignKey));
        hide ClearAt, Prepend;
        for index := 0 to |items|
          invariant ClearItems(w, items, schema, segments, foreignKey) ==
                    Prepend(cleared, ClearItems(w, items[index..], schema, segments, foreignKey))
        {
          OneItem(w, items[index..], schema, segments, foreignKey, cleared);
          assert items[index..][1..] == items[index + 1..];
          var item := ClearPatchRelationValue(w, items[index], schema, segments, foreignKey);
          if item.Err? {
            return item;
          }
          cleared := cleared + [item.value];
        }
        NoItems(w, schema, segments, foreignKey, cleared);
        return Ok(Elems(cleared));
      case Record(fields) =>
        if segments[0] !in schema.relationships {
          return Err(NotInSchema);
        }
        var relation := schema.relationships[segments[0]];
        if relation.fieldIndex !in fields {
          return Err(NoField);
        }
        if |segments| > 1 {
          if relation.relatedSchema.None? || relation.relatedSchema.value !in w.schemas {
            return Err(Unresolved);
          }
          var slot := fields[relation.fieldIndex];
          var below :=
            ClearPatchRelationValue(w, slot.value, w.schemas[relation.relatedSchema.value], segments[1..], foreignKey);
          return if below.Ok? then Ok(Record(fields[relation.fieldIndex := slot.(value := below.value)])) else below;
        }
        var cleared := fields;
        if foreignKey && relation.kind == BelongsTo {
          var column := ColumnByName(schema.columns, relation.foreignKey);
          if column.None? {
            return Err(NoForeignKeyColumn);
          }
          var withoutKey := ClearField(cleared, column.value);
          if withoutKey.Err? {
            return Err(withoutKey.error);
          }
          cleared := withoutKey.value;
        }
        var last := ClearField(cleared, relation.fieldIndex);
        return if last.Ok? then Ok(Record(last.value)) else Err(last.error);
    }
  }

  /** The entity the update mapper returned, about to be written. */
  class Entity {
    var value: Value

    constructor (value: Value)
      ensures this.value == value
    {
      this.value := value;
    }
  }

  lemma {:induction false} ClearsOfAppend(document: PatchDocument, a: seq<string>, b: seq<string>,
                                          p: seq<Option<string>>, q: seq<Option<string>>)
    requires |p| == |a| && |q| == |b|
    ensures ClearsOf(document, a + b, p + q) == ClearsOf(document, a, p) + ClearsOf(document, b, q)
  {
    if a == [] {
      assert a + b == b && p + q == q;
    } else {
      assert (a + b)[1..] == a[1..] + b && (p + q)[1..] == p[1..] + q;
      ClearsOfAppend(document, a[1..], b, p[1..], q);
    }
  }

  lemma {:induction false} SequenceErrStays(w: World, v: Value, schema: Schema, a: seq<Clear>, b: seq<Clear>)
    requires NonEmptyAll(a) && NonEmptyAll(b) && ClearSequence(w, v, schema, a).Err?
    ensures ClearSequence(w, v, schema, a + b) == ClearSequence(w, v, schema, a)
    decreases |b|
  {
    if b == [] {
      assert a + b == a;
    } else {
      assert (a + b)[..|a + b| - 1] == a + b[..|b| - 1];
      SequenceErrStays(w, v, schema, a, b[..|b| - 1]);
    }
  }

  lemma ClearsOfSnoc(document: PatchDocument, a: seq<string>, p: seq<Option<string>>, relation: string,
                     key: Option<string>)
    requires |p| == |a|
    ensures ClearsOf(document, a + [relation], p + [key]) ==
      ClearsOf(document, a, p) + ClearFor(document, relation, key)
  {
    ClearsOfAppend(document, a, [relation], p, [key]);
    assert ClearsOf(document, [], []) == [];
    assert ClearFor(document, relation, key) + [] == ClearFor(document, relation, key);
  }

  lemma SequenceSnoc(w: World, v: Value, schema: Schema, clears: seq<Clear>, c: Clear, between: Value)
    requires NonEmptyAll(clears) && c.segments != [] && ClearSequence(w, v, schema, clears) == Ok(between)
    ensures ClearSequence(w, v, schema, clears + [c]) == ClearAt(w, between, schema, c.segments, c.foreignKey)
  {
  }

  lemma PicksSnoc(fields: map<string, string>, selected: seq<string>, picked: seq<Option<string>>, relation: string,
                  key: Option<string>)
    requires Picks(fields, selected, picked)
    requires if relation in fields.Values then key.Some? && key.value in fields && fields[key.value] == relation
      else key.None?
    ensures Picks(fields, selected + [relation], picked + [key])
  {
  }

  /** A clear that fails fails the whole sequence, whatever comes after it. */
  lemma StoppedAt(w: World, v: Value, schema: Schema, document: PatchDocument, fields: map<string, string>,
                  a: seq<string>, b: seq<string>, p: seq<Option<string>>) returns (q: seq<Option<string>>)
    requires Picks(fields, a, p) && ClearSequence(w, v, schema, ClearsOf(document, a, p)).Err?
    ensures Picks(fields, a + b, p + q) && |q| == |b|
    ensures ClearSequence(w, v, schema, ClearsOf(document, a + b, p + q)).Err?
  {
    hide ClearSequence, ClearsOf;
    q := AnyPicks(fields, b);
    ClearsOfAppend(document, a, b, p, q);
    SequenceErrStays(w, v, schema, ClearsOf(document, a, p), ClearsOf(document, b, q));
  }

  /** `normalizePatchAssociationNulls`: performs the clears in the order of the selection, up to the first
      that fails. `picked` are the JSON paths it found for the relations. */
  method NormalizePatchAssociationNulls(entity: Entity?, w: World, schema: Schema, document: PatchDocument,
                                        fields: map<string, string>, selected: seq<string>)
    returns (ok: bool, ghost picked: seq<Option<string>>)
    modifies entity
    ensures entity == null ==> !ok
    ensures Picks(fields, selected, picked)
    ensures entity != null ==>
      var result := ClearSequence(w, old(entity.value), schema, ClearsOf(document, selected, picked));
      (ok <==> result.Ok?) && (ok ==> entity.value == result.value)
  {
    if entity == null {
      return false, AnyPicks(fields, selected);
    }
    ghost var original := entity.value;
    picked := [];
    hide ClearSequence, ClearAt, ClearsOf, Picks;
    NothingPicked(w, original, schema, document, fields);
    for i := 0 to |selected|
      invariant Picks(fields, selected[..i], picked) && |picked| == i
      invariant ClearSequence(w, original, schema, ClearsOf(document, selected[..i], picked)) == Ok(entity.value)
    {
      ghost var done := ClearsOf(document, selected[..i], picked);
      assert selected[..i + 1] == selected[..i] + [selected[i]];
      ghost var before := picked;
      if selected[i] in fields.Values {
        var patchPath :| patchPath in fields && fields[patchPath] == selected[i];
        ClearsOfSnoc(document, selected[..i], picked, selected[i], Some(patchPath));
        PicksSnoc(fields, selected[..i], picked, selected[i], Some(patchPath));
        picked := picked + [Some(patchPath)];
        var isNull := document.IsNull(patchPath);
        if isNull || document.IsEmptyArray(patchPath) {
          ghost var c := Clear(Split(selected[i], '.'), isNull);
          SequenceSnoc(w, original, schema, done, c, entity.value);
          var cleared := ClearPatchRelationValue(w, entity.value, schema, Split(selected[i], '.'), isNull);
          if cleared.Err? {
            ghost var rest :=
              StoppedAt(w, original, schema, document, fields, selected[..i + 1], selected[i + 1..], picked);
            assert selected == selected[..i + 1] + selected[i + 1..];
            return false, picked + rest;
          }
          entity.value := cleared.value;
        } else {
          assert done + [] == done;
        }
      } else {
        ClearsOfSnoc(document, selected[..i], picked, selected[i], None);
        PicksSnoc(fields, selected[..i], picked, selected[i], None);
        picked := picked + [None];
        assert done + [] == done;
      }
    }
    assert selected[..|selected|] == selected;
    return true, picked;
  }

  lemma NothingPicked(w: World, v: Value, schema: Schema, document: PatchDocument, fields: map<string, string>)
    ensures Picks(fields, [], []) && ClearSequence(w, v, schema, ClearsOf(document, [], [])) == Ok(v)
  {
  }

  /** With derived JSON paths, normalization empties exactly the relations the document gives as
      null or [], all at once. */
  lemma NormalizationIsExact(types: InputTypes, root: PathType, syncPaths: seq<string>, fields: map<string, string>,
                             document: PatchDocument, selected: seq<string>, picked: seq<Option<string>>, w: World,
                             schema: Schema, v: Value)
    requires types.DotFree() && Represents(types, root, syncPaths, map[], fields) && Sound(w, schema)
    requires Picks(fields, selected, picked)
    ensures var clears := ClearsOf(document, selected, picked);
            && Unambiguous(fields)
            && (ClearSequence(w, v, schema, clears).Ok? <==>
                  forall c :: c in clears ==> ClearAt(w, v, schema, c.segments, c.foreignKey).Ok?)
            && (ClearSequence(w, v, schema, clears).Ok? ==>
                  ClearSequence(w, v, schema, clears).value == NormalizeAll(w, v, schema, AsSet(clears)))
  {
    hide ClearSequence, NormalizeAll, Represents, Sound, Antichain, ClearsOf;
    var clears := ClearsOf(document, selected, picked);
    ClearsFormAntichain(types, root, syncPaths, fields, document, selected, picked);
    SequenceOk(w, v, schema, clears);
    if ClearSequence(w, v, schema, clears).Ok? {
      SequenceIsSimultaneous(w, v, schema, clears);
    }
  }

  /** What a successful normalization for a document with derived JSON paths has done, on every parent
      reached: a relation the document gives as null or [] holds an empty slice, or its type's zero if it
      is no slice; and so does, for a null belongs-to relation, the field of the foreign key's column. */
  lemma DocumentClears(types: InputTypes, root: PathType, syncPaths: seq<string>, fields: map<string, string>,
                       document: PatchDocument, selected: seq<string>, picked: seq<Option<string>>,
                       w: World, schema: Schema, v: Value, after: Value,
                       i: nat, path: seq<string>, relation: string, parent: Value, parentSchema: Schema)
    requires types.DotFree() && Represents(types, root, syncPaths, map[], fields) && Picks(fields, selected, picked)
    requires Sound(w, schema) && ClearSequence(w, v, schema, ClearsOf(document, selected, picked)) == Ok(after)
    requires i < |selected| && picked[i].Some? && Split(selected[i], '.') == path + [relation]
    requires document.IsNull(picked[i].value) || document.IsEmptyArray(picked[i].value)
    requires Reached(w, after, schema, path, parent, parentSchema)
    ensures parent.Record? && relation in parentSchema.relationships
    ensures var at := parentSchema.relationships[relation].fieldIndex;
            && at in parent.fields
            && parent.fields[at].value == if parent.fields[at].isSlice then Elems([]) else parent.fields[at].zero
    ensures document.IsNull(picked[i].value) && parentSchema.relationships[relation].kind == BelongsTo ==>
      exists k ::
        && FirstNamed(parentSchema.columns, parentSchema.relationships[relation].foreignKey, k)
        && var at := parentSchema.columns[k].fieldIndex;
        && at in parent.fields
        && parent.fields[at].value == if parent.fields[at].isSlice then Elems([]) else parent.fields[at].zero
  {
    var clears := ClearsOf(document, selected, picked);
    var c := Clear(path + [relation], document.IsNull(picked[i].value));
    ClearIsAmong(document, selected, picked, i);
    ClearsFormAntichain(types, root, syncPaths, fields, document, selected, picked);
    SequenceIsSimultaneous(w, v, schema, clears);
    SequenceOk(w, v, schema, clears);
    hide ClearSequence, ClearsOf, Represents, Picks, ClearAt, Split, NormalizeSlot, Fits;
    assert c in AsSet(clears) && ClearAt(w, v, schema, c.segments, c.foreignKey).Ok?;
    NotAbovePath(AsSet(clears), path, relation, c.foreignKey);
    var before := ParentsNormalized(w, v, schema, AsSet(clears), path, parent, parentSchema);
    ReachedIsRecord(w, v, schema, path, before, parentSchema);
    ClearSucceeds(w, v, schema, c.segments, c.foreignKey);
    assert c.segments[..|path|] == path;
    assert Fits(w, before, parentSchema, relation, true, c.foreignKey);
    SameKeys(w, before, parentSchema, BelowPath(AsSet(clears), path), relation, c.foreignKey);
    ClearedOnEveryParent(w, v, schema, AsSet(clears), path, relation, c.foreignKey, parent, parentSchema);
  }

  /** The document gives null or [] for the i-th selected relation. */
  ghost predicate Asked(document: PatchDocument, picked: seq<Option<string>>, i: nat) {
    && i < |picked| && picked[i].Some?
    && (document.IsNull(picked[i].value) || document.IsEmptyArray(picked[i].value))
  }

  /** A clear asked for at this relation of a parent, or at one below it, concerns the field: it is the
      relation's own, or the foreign key's if the document gives null for a belongs-to relation right here. */
  ghost predicate Concerns(document: PatchDocument, selected: seq<string>, picked: seq<Option<string>>,
                           path: seq<string>, schema: Schema, index: Index, i: nat, relation: string)
  {
    && i < |selected| && Asked(document, picked, i) && path + [relation] <= Split(selected[i], '.')
    && relation in schema.relationships
    && var r := schema.relationships[relation];
    && (r.fieldIndex == index
        || (&& Split(selected[i], '.') == path + [relation] && document.IsNull(picked[i].value) && r.kind == BelongsTo
            && exists k :: FirstNamed(schema.columns, r.foreignKey, k) && schema.columns[k].fieldIndex == index))
  }

  /** And what it has kept: on every parent reached, not below a relation given as null or [], a field that
      no clear asked for concerns. So [] for a belongs-to relation keeps its key. */
  lemma DocumentKeeps(types: InputTypes, root: PathType, syncPaths: seq<string>, fields: map<string, string>,
                      document: PatchDocument, selected: seq<string>, picked: seq<Option<string>>,
                      w: World, schema: Schema, v: Value, after: Value,
                      path: seq<string>, parent: Value, parentSchema: Schema, index: Index) returns (before: Value)
    requires types.DotFree() && Represents(types, root, syncPaths, map[], fields) && Picks(fields, selected, picked)
    requires Sound(w, schema) && ClearSequence(w, v, schema, ClearsOf(document, selected, picked)) == Ok(after)
    requires Reached(w, after, schema, path, parent, parentSchema)
    requires forall i :: 0 <= i < |selected| && Asked(document, picked, i) ==> !(Split(selected[i], '.') <= path)
    requires forall i, relation :: 0 <= i ==>
      !Concerns(document, selected, picked, path, parentSchema, index, i, relation)
    ensures Reached(w, v, schema, path, before, parentSchema) && before.Record? && parent.Record?
    ensures before.fields.Keys == parent.fields.Keys
    ensures index in parent.fields ==> parent.fields[index] == before.fields[index]
  {
    var clears := ClearsOf(document, selected, picked);
    ClearsFormAntichain(types, root, syncPaths, fields, document, selected, picked);
    SequenceIsSimultaneous(w, v, schema, clears);
    hide ClearSequence, ClearsOf, Represents, Picks, Split, Concerns, NormalizeAll, Reached, Emptied, Sound, Below;
    forall c | c in AsSet(clears) ensures c.segments != [] && !(c.segments <= path) {
      var i := ClearComesFrom(document, selected, picked, c);
    }
    forall c | c in BelowPath(AsSet(clears), path)
      ensures c.segments != [] && (c.segments[0] in parentSchema.relationships ==>
                var r := parentSchema.relationships[c.segments[0]];
                && r.fieldIndex != index
                && (|c.segments| == 1 && c.foreignKey && r.kind == BelongsTo ==>
                      ColumnByName(parentSchema.columns, r.foreignKey) != Some(index)))
    {
      Unconcerned(document, selected, picked, path, parentSchema, index, c);
    }
    NothingEmptied(parentSchema, BelowPath(AsSet(clears), path), index);
    before := OtherFieldsKept(w, v, schema, AsSet(clears), path, parent, parentSchema, index);
  }

  lemma NothingEmptied(schema: Schema, clears: set<Clear>, index: Index)
    requires forall c :: c in clears ==>
      && c.segments != []
      && (c.segments[0] in schema.relationships ==>
            var r := schema.relationships[c.segments[0]];
            && r.fieldIndex != index
            && (|c.segments| == 1 && c.foreignKey && r.kind == BelongsTo ==>
                  ColumnByName(schema.columns, r.foreignKey) != Some(index)))
    ensures !Emptied(schema, clears, index)
    ensures forall r :: r in schema.relationships && schema.relationships[r].fieldIndex == index ==>
      Below(clears, r) == {}
  {
  }

  lemma Unconcerned(document: PatchDocument, selected: seq<string>, picked: seq<Option<string>>,
                    path: seq<string>, schema: Schema, index: Index, c: Clear)
    requires |picked| == |selected| && c in BelowPath(AsSet(ClearsOf(document, selected, picked)), path)
    requires forall i :: 0 <= i < |selected| && Asked(document, picked, i) ==> !(Split(selected[i], '.') <= path)
    requires forall i, relation :: 0 <= i ==> !Concerns(document, selected, picked, path, schema, index, i, relation)
    ensures c.segments != [] && (c.segments[0] in schema.relationships ==>
              var r := schema.relationships[c.segments[0]];
              && r.fieldIndex != index
              && (|c.segments| == 1 && c.foreignKey && r.kind == BelongsTo ==>
                    ColumnByName(schema.columns, r.foreignKey) != Some(index)))
  {
    hide ClearsOf, Split;
    BelowPathMember(AsSet(ClearsOf(document, selected, picked)), path, c);
    var i := ClearComesFrom(document, selected, picked, Clear(path + c.segments, c.foreignKey));
    assert c.segments != [] by {
      assert path + [] == path;
    }
    var relation := c.segments[0];
    assert (path + c.segments)[..|path| + 1] == path + [relation];
    assert !Concerns(document, selected, picked, path, schema, index, i, relation);
    if |c.segments| == 1 && relation in schema.relationships {
      assert c.segments == [relation];
      var key := schema.relationships[relation].foreignKey;
      if ColumnByName(schema.columns, key) == Some(index) {
        var k := ColumnByNameFinds(schema.columns, key);
        ColumnByNameIsFirst(schema.columns, key, k);
      }
    }
  }

  lemma {:induction false} BelowPathMember(clears: set<Clear>, path: seq<string>, c: Clear)
    requires c in BelowPath(clears, path)
    ensures Clear(path + c.segments, c.foreignKey) in clears
    decreases path
  {
    if path == [] {
      assert path + c.segments == c.segments;
    } else {
      BelowPathMember(Below(clears, path[0]), path[1..], c);
      var lower := Clear(path[1..] + c.segments, c.foreignKey);
      var upper :| upper in clears && |upper.segments| > 1 && upper.segments[0] == path[0]
        && Clear(upper.segments[1..], upper.foreignKey) == lower;
      assert upper.segments == [path[0]] + upper.segments[1..];
      assert path + c.segments == [path[0]] + (path[1..] + c.segments);
    }
  }

  lemma {:induction false} ClearComesFrom(document: PatchDocument, selected: seq<string>, picked: seq<Option<string>>,
                                          c: Clear) returns (i: nat)
    requires |picked| == |selected| && c in ClearsOf(document, selected, picked)
    ensures i < |selected| && Asked(document, picked, i)
    ensures c == Clear(Split(selected[i], '.'), document.IsNull(picked[i].value))
  {
    hide Split;
    if c in ClearFor(document, selected[0], picked[0]) {
      i := 0;
    } else {
      var j := ClearComesFrom(document, selected[1..], picked[1..], c);
      i := j + 1;
    }
  }

  lemma NotAbovePath(clears: set<Clear>, path: seq<string>, relation: string, foreignKey: bool)
    requires Antichain(clears) && Clear(path + [relation], foreignKey) in clears
    ensures forall c :: c in clears ==> c.segments != [] && !(c.segments <= path)
  {
    forall c | c in clears ensures c.segments != [] && !(c.segments <= path) {
      assert c.segments <= path ==> c.segments < path + [relation];
    }
  }

  /** A parent that a clear fits still has the fields it needs when it is normalized. */
  lemma SameKeys(w: World, before: Value, schema: Schema, clears: set<Clear>, relation: string, foreignKey: bool)
    requires Fits(w, before, schema, relation, true, foreignKey)
    ensures var after := NormalizeAll(w, before, schema, clears);
            && after.Record? && after.fields.Keys == before.fields.Keys
            && relation in schema.relationships && schema.relationships[relation].fieldIndex in after.fields
            && (foreignKey && schema.relationships[relation].kind == BelongsTo ==>
                  exists k :: FirstNamed(schema.columns, schema.relationships[relation].foreignKey, k)
                    && schema.columns[k].fieldIndex in after.fields)
  {
  }

  lemma {:induction false} ClearIsAmong(document: PatchDocument, selected: seq<string>, picked: seq<Option<string>>,
                                        i: nat)
    requires |picked| == |selected| && i < |selected| && picked[i].Some?
    requires document.IsNull(picked[i].value) || document.IsEmptyArray(picked[i].value)
    ensures Clear(Split(selected[i], '.'), document.IsNull(picked[i].value)) in ClearsOf(document, selected, picked)
  {
    if i > 0 {
      ClearIsAmong(document, selected[1..], picked[1..], i - 1);
    }
  }

  // ----- overlapping clears ----------------------------------------------------------------------

  /** The condition holds for every field that the path reaches, with the schema related there. */
  ghost predicate AtEach(w: World, v: Value, schema: Schema, path: seq<string>, holds: (Slot, Schema) -> bool)
    requires path != []
    decreases v
  {
    match v
    case Nil => true
    case Scalar(_) => true
    case Ptr(to) => AtEach(w, to, schema, path, holds)
    case Elems(items) => forall i :: 0 <= i < |items| ==> AtEach(w, items[i], schema, path, holds)
    case Record(fields) =>
      && path[0] in schema.relationships
      && var r := schema.relationships[path[0]];
      && r.fieldIndex in fields && r.relatedSchema.Some? && r.relatedSchema.value in w.schemas
      && var related := w.schemas[r.relatedSchema.value];
         if |path| == 1 then holds(fields[r.fieldIndex], related)
         else AtEach(w, fields[r.fieldIndex].value, related, path[1..], holds)
  }

  /** The rest of a clear succeeds on what an emptied field holds. */
  ghost function Succeeds(w: World, rest: seq<string>, foreignKey: bool): (Slot, Schema) -> bool
    requires rest != []
  {
    (slot: Slot, related: Schema) => ClearAt(w, ClearedValue(slot), related, rest, foreignKey).Ok?
  }

  /** The rest of a clear changes nothing in what an emptied field holds. */
  ghost function ChangesNothing(w: World, rest: seq<string>, foreignKey: bool): (Slot, Schema) -> bool
    requires rest != []
  {
    (slot: Slot, related: Schema) => ClearAt(w, ClearedValue(slot), related, rest, foreignKey) == Ok(ClearedValue(slot))
  }

  lemma {:induction false} ClearItemsSame(w: World, a: seq<Value>, b: seq<Value>, schema: Schema, c: Clear)
    requires c.segments != [] && |a| == |b|
    requires forall i :: 0 <= i < |a| ==>
      ClearAt(w, a[i], schema, c.segments, c.foreignKey) == ClearAt(w, b[i], schema, c.segments, c.foreignKey)
    ensures ClearItems(w, a, schema, c.segments, c.foreignKey) == ClearItems(w, b, schema, c.segments, c.foreignKey)
    decreases |a|
  {
    if a != [] {
      ClearItemsSame(w, a[1..], b[1..], schema, c);
    }
  }

  /** Clearing a relation undoes whatever was cleared below it before. */
  lemma {:induction false} UpperUndoesLower(w: World, v: Value, schema: Schema, upper: Clear, lower: Clear)
    requires Sound(w, schema) && upper.segments != [] && upper.segments < lower.segments
    requires ClearAt(w, v, schema, lower.segments, lower.foreignKey).Ok?
    ensures ClearAt(w, ClearAt(w, v, schema, lower.segments, lower.foreignKey).value, schema, upper.segments,
      upper.foreignKey) ==
            ClearAt(w, v, schema, upper.segments, upper.foreignKey)
    decreases v
  {
    match v {
      case Ptr(to) => UpperUndoesLower(w, to, schema, upper, lower);
      case Elems(items) =>
        var after := ClearItems(w, items, schema, lower.segments, lower.foreignKey).value;
        forall i | 0 <= i < |items|
          ensures ClearAt(w, after[i], schema, upper.segments, upper.foreignKey) ==
                  ClearAt(w, items[i], schema, upper.segments, upper.foreignKey)
        {
          ClearItemsAt(w, items, schema, lower, i);
          UpperUndoesLower(w, items[i], schema, upper, lower);
        }
        ClearItemsSame(w, after, items, schema, upper);
      case Record(fields) =>
        if |upper.segments| == 1 {
          UpperUndoesLowerHere(w, fields, schema, upper, lower);
        } else {
          var r := schema.relationships[upper.segments[0]];
          var related := w.schemas[r.relatedSchema.value];
          var slot := fields[r.fieldIndex];
          UpperUndoesLower(w, slot.value, related, Clear(upper.segments[1..], upper.foreignKey),
                           Clear(lower.segments[1..], lower.foreignKey));
          var below := ClearAt(w, slot.value, related, lower.segments[1..], lower.foreignKey).value;
          var cleared := ClearAt(w, slot.value, related, upper.segments[1..], upper.foreignKey);
          if cleared.Ok? {
            assert fields[r.fieldIndex := slot.(value := below)][r.fieldIndex := slot.(value := cleared.value)] ==
                   fields[r.fieldIndex := slot.(value := cleared.value)];
          }
        }
      case _ =>
    }
  }

  lemma UpperUndoesLowerHere(w: World, fields: map<Index, Slot>, schema: Schema, upper: Clear, lower: Clear)
    requires SchemaSound(schema) && |upper.segments| == 1 && upper.segments < lower.segments
    requires ClearAt(w, Record(fields), schema, lower.segments, lower.foreignKey).Ok?
    ensures ClearAt(w, ClearAt(w, Record(fields), schema, lower.segments, lower.foreignKey).value, schema,
                    upper.segments, upper.foreignKey) ==
            ClearAt(w, Record(fields), schema, upper.segments, upper.foreignKey)
  {
    var r := schema.relationships[upper.segments[0]];
    var after := ClearAt(w, Record(fields), schema, lower.segments, lower.foreignKey).value.fields;
    hide ClearAt;
    assert after == fields[r.fieldIndex := fields[r.fieldIndex].(value := after[r.fieldIndex].value)];
    assert ClearLast(after, schema, r, upper.foreignKey) == ClearLast(fields, schema, r, upper.foreignKey) by {
      ClearLastIgnores(fields, schema, r, upper.foreignKey, after[r.fieldIndex].value);
    }
    ClearAtLast(w, fields, schema, upper);
    ClearAtLast(w, after, schema, upper);
  }

  lemma ClearAtLast(w: World, fields: map<Index, Slot>, schema: Schema, c: Clear)
    requires |c.segments| == 1 && c.segments[0] in schema.relationships
    requires schema.relationships[c.segments[0]].fieldIndex in fields
    ensures ClearAt(w, Record(fields), schema, c.segments, c.foreignKey) ==
      match ClearLast(fields, schema, schema.relationships[c.segments[0]], c.foreignKey)
      case Ok(cleared) => Ok(Record(cleared))
      case Err(e) => Err(e)
  {
  }

  /** What the relation held does not matter when it is emptied. */
  lemma ClearLastIgnores(fields: map<Index, Slot>, schema: Schema, relation: Relation, foreignKey: bool, value: Value)
    requires relation.fieldIndex in fields
    requires forall name :: ColumnByName(schema.columns, name) != Some(relation.fieldIndex)
    ensures ClearLast(fields[relation.fieldIndex := fields[relation.fieldIndex].(value := value)], schema, relation,
      foreignKey) ==
            ClearLast(fields, schema, relation, foreignKey)
  {
    var at := relation.fieldIndex;
    var other := fields[at := fields[at].(value := value)];
    var emptied := fields[at].(value := ClearedValue(fields[at]));
    assert other[at := emptied] == fields[at := emptied];
    if foreignKey && relation.kind == BelongsTo && ColumnByName(schema.columns, relation.foreignKey).Some? {
      var column := ColumnByName(schema.columns, relation.foreignKey).value;
      assert column != at;
      if column in fields {
        var key := fields[column].(value := ClearedValue(fields[column]));
        assert other[column := key][at := emptied] == fields[column := key][at := emptied];
      }
    }
  }

  /** After a relation was cleared, a clear below it meets emptied fields only: it succeeds exactly if
      it succeeds on each of them, and changes nothing exactly if it changes none of them. */
  lemma {:induction false} LowerAfterUpper(w: World, v: Value, schema: Schema, upper: Clear, rest: seq<string>,
                                           foreignKey: bool)
    requires Sound(w, schema) && upper.segments != [] && rest != []
    requires ClearAt(w, v, schema, upper.segments, upper.foreignKey).Ok?
    ensures var cleared := ClearAt(w, v, schema, upper.segments, upper.foreignKey).value;
            var lower := ClearAt(w, cleared, schema, upper.segments + rest, foreignKey);
            && (lower.Ok? <==> AtEach(w, v, schema, upper.segments, Succeeds(w, rest, foreignKey)))
            && (lower == Ok(cleared) <==> AtEach(w, v, schema, upper.segments, ChangesNothing(w, rest, foreignKey)))
    decreases v
  {
    var both := upper.segments + rest;
    match v {
      case Ptr(to) => LowerAfterUpper(w, to, schema, upper, rest, foreignKey);
      case Elems(items) => LowerAfterUpperItems(w, items, schema, upper, rest, foreignKey);
      case Record(fields) =>
        assert both[0] == upper.segments[0] && both[1..] == upper.segments[1..] + rest;
        if |upper.segments| == 1 {
          assert upper.segments[1..] + rest == rest;
          LowerAfterUpperHere(w, fields, schema, upper, rest, foreignKey);
        } else {
          var r := schema.relationships[upper.segments[0]];
          var related, slot := w.schemas[r.relatedSchema.value], fields[r.fieldIndex];
          LowerAfterUpper(w, slot.value, related, Clear(upper.segments[1..], upper.foreignKey), rest, foreignKey);
          var below := ClearAt(w, slot.value, related, upper.segments[1..], upper.foreignKey).value;
          var cleared := fields[r.fieldIndex := slot.(value := below)];
          var lower := ClearAt(w, below, related, upper.segments[1..] + rest, foreignKey);
          if lower.Ok? {
            SameUpdate(cleared, r.fieldIndex, slot.(value := lower.value));
          }
        }
      case _ =>
    }
  }

  lemma SameUpdate(fields: map<Index, Slot>, index: Index, slot: Slot)
    requires index in fields
    ensures fields[index := slot] == fields <==> slot == fields[index]
  {
  }

  lemma {:induction false} LowerAfterUpperItems(w: World, items: seq<Value>, schema: Schema, upper: Clear,
        rest: seq<string>, foreignKey: bool)
    requires Sound(w, schema) && upper.segments != [] && rest != []
    requires ClearItems(w, items, schema, upper.segments, upper.foreignKey).Ok?
    ensures var cleared := ClearItems(w, items, schema, upper.segments, upper.foreignKey).value;
            var lower := ClearItems(w, cleared, schema, upper.segments + rest, foreignKey);
            && (lower.Ok? <==> forall i :: 0 <= i < |items| ==>
                  AtEach(w, items[i], schema, upper.segments, Succeeds(w, rest, foreignKey)))
            && (lower == Ok(cleared) <==> forall i :: 0 <= i < |items| ==>
                  AtEach(w, items[i], schema, upper.segments, ChangesNothing(w, rest, foreignKey)))
    decreases items
  {
    if items != [] {
      LowerAfterUpper(w, items[0], schema, upper, rest, foreignKey);
      LowerAfterUpperItems(w, items[1..], schema, upper, rest, foreignKey);
      hide Sound, AtEach, ClearAt, Succeeds, ChangesNothing;
      var cleared := ClearItems(w, items, schema, upper.segments, upper.foreignKey).value;
      var tail := ClearItems(w, items[1..], schema, upper.segments, upper.foreignKey).value;
      assert cleared[1..] == tail;
      assert forall i :: 1 <= i < |items| ==> items[i] == items[1..][i - 1];
      assert items == [items[0]] + items[1..];
      var lower := ClearItems(w, cleared, schema, upper.segments + rest, foreignKey);
      if lower.Ok? {
        assert lower.value == cleared <==> lower.value[0] == cleared[0] && lower.value[1..] == cleared[1..] by {
          assert cleared == [cleared[0]] + cleared[1..];
          assert lower.value == [lower.value[0]] + lower.value[1..];
        }
      }
    }
  }

  lemma LowerAfterUpperHere(w: World, fields: map<Index, Slot>, schema: Schema, upper: Clear, rest: seq<string>,
                            foreignKey: bool)
    requires SchemaSound(schema) && |upper.segments| == 1 && rest != []
    requires ClearAt(w, Record(fields), schema, upper.segments, upper.foreignKey).Ok?
    ensures var cleared := ClearAt(w, Record(fields), schema, upper.segments, upper.foreignKey).value;
            var lower := ClearAt(w, cleared, schema, upper.segments + rest, foreignKey);
            && (lower.Ok? <==> AtEach(w, Record(fields), schema, upper.segments, Succeeds(w, rest, foreignKey)))
            && (lower == Ok(cleared) <==>
              AtEach(w, Record(fields), schema, upper.segments, ChangesNothing(w, rest, foreignKey)))
  {
    var both := upper.segments + rest;
    assert both[0] == upper.segments[0] && both[1..] == rest;
    var r := schema.relationships[upper.segments[0]];
    ClearAtLast(w, fields, schema, upper);
    ClearLastEffect(fields, schema, r, upper.foreignKey);
    hide ClearLast;
    var cleared := ClearLast(fields, schema, r, upper.foreignKey).value;
    var slot := fields[r.fieldIndex];
    assert cleared[r.fieldIndex] == slot.(value := ClearedValue(slot));
    if r.relatedSchema.Some? && r.relatedSchema.value in w.schemas {
      var lower := ClearAt(w, ClearedValue(slot), w.schemas[r.relatedSchema.value], rest, foreignKey);
      if lower.Ok? {
        SameUpdate(cleared, r.fieldIndex, cleared[r.fieldIndex].(value := lower.value));
      }
    }
  }

  /** Of two clears, one below the other, the code performs the upper one first, because relations are
      selected in sorted order: then the lower one is performed on what the emptied fields hold. The other
      order would be the upper clear alone. Where both orders succeed they differ exactly if the lower clear
      changes something in an emptied field, as it may in a struct that is held by value. */
  lemma OverlapOrder(w: World, v: Value, schema: Schema, upper: Clear, lower: Clear)
    requires Sound(w, schema) && upper.segments != [] && upper.segments < lower.segments
    ensures var rest := lower.segments[|upper.segments|..];
            var alone := ClearAt(w, v, schema, upper.segments, upper.foreignKey);
            var code := ClearSequence(w, v, schema, [upper, lower]);
            var other := ClearSequence(w, v, schema, [lower, upper]);
            && (other.Ok? <==> alone.Ok? && ClearAt(w, v, schema, lower.segments, lower.foreignKey).Ok?)
            && (other.Ok? ==> other == alone)
            && (code.Ok? <==> alone.Ok? && AtEach(w, v, schema, upper.segments, Succeeds(w, rest, lower.foreignKey)))
            && (code.Ok? && other.Ok? ==>
                  (code == other <==> AtEach(w, v, schema, upper.segments, ChangesNothing(w, rest, lower.foreignKey))))
  {
    var rest := lower.segments[|upper.segments|..];
    assert lower.segments == upper.segments + rest;
    SequencePair(w, v, schema, upper, lower);
    SequencePair(w, v, schema, lower, upper);
    if ClearAt(w, v, schema, lower.segments, lower.foreignKey).Ok? {
      UpperUndoesLower(w, v, schema, upper, lower);
    }
    if ClearAt(w, v, schema, upper.segments, upper.foreignKey).Ok? {
      LowerAfterUpper(w, v, schema, upper, rest, lower.foreignKey);
    }
  }

  /** In particular nothing is changed below a slice, nor below a pointer, whose zero is nil. */
  lemma NothingBelowNil(w: World, slot: Slot, related: Schema, rest: seq<string>, foreignKey: bool)
    requires rest != [] && (slot.isSlice || slot.zero.Nil?)
    ensures Succeeds(w, rest, foreignKey)(slot, related) && ChangesNothing(w, rest, foreignKey)(slot, related)
  {
  }

  // ----- the order of the code -------------------------------------------------------------------

  lemma {:induction false} LessThanExtension(a: string, b: string)
    requires b != ""
    ensures Less(a, a + b)
  {
    if a != "" {
      assert (a + b)[1..] == a[1..] + b;
      LessThanExtension(a[1..], b);
    }
  }

  /** A relation sorts before those below it. */
  lemma UpperIsLess(upper: string, lower: string)
    requires Split(upper, '.') < Split(lower, '.')
    ensures Less(upper, lower)
  {
    hide Split;
    PrefixIsSegmentPrefix(upper, lower);
    assert upper != lower;
    assert lower == upper + lower[|upper|..];
    LessThanExtension(upper, lower[|upper|..]);
  }

  lemma {:induction false} ClearsFrom(document: PatchDocument, selected: seq<string>, picked: seq<Option<string>>,
                                      c: Clear)
    returns (relation: string)
    requires |picked| == |selected| && c in ClearsOf(document, selected, picked)
    ensures relation in selected && c.segments == Split(relation, '.')
  {
    if c in ClearFor(document, selected[0], picked[0]) {
      relation := selected[0];
    } else {
      relation := ClearsFrom(document, selected[1..], picked[1..], c);
    }
  }

  /** No clear is performed after one below it. */
  ghost predicate UpperFirst(clears: seq<Clear>) {
    forall i, j :: 0 <= i < j < |clears| ==> !(clears[j].segments < clears[i].segments)
  }

  lemma UpperFirstCons(first: seq<Clear>, rest: seq<Clear>)
    requires |first| <= 1 && UpperFirst(rest)
    requires forall d :: d in rest && first != [] ==> !(d.segments < first[0].segments)
    ensures UpperFirst(first + rest)
  {
  }

  /** The clears of a sorted selection are performed from above. */
  lemma {:induction false} UpperClearsFirst(document: PatchDocument, selected: seq<string>, picked: seq<Option<string>>)
    requires |picked| == |selected| && StrictlySorted(selected)
    ensures UpperFirst(ClearsOf(document, selected, picked))
    decreases selected
  {
    if selected != [] {
      var first, rest := ClearFor(document, selected[0], picked[0]), ClearsOf(document, selected[1..], picked[1..]);
      UpperClearsFirst(document, selected[1..], picked[1..]);
      forall d | d in rest && first != [] ensures !(d.segments < first[0].segments) {
        var relation := ClearsFrom(document, selected[1..], picked[1..], d);
        if d.segments < first[0].segments {
          UpperIsLess(relation, selected[0]);
          LessTransitive(relation, selected[0], relation);
          LessIrreflexive(relation);
        }
      }
      UpperFirstCons(first, rest);
    }
  }

  /** A struct with one field, at index [0]. */
  function Single(s: Slot): Value {
    Record(map[[0] := s])
  }

  lemma ClearSingle(w: World, schema: Schema, name: string, s: Slot)
    requires name in schema.relationships && schema.relationships[name].fieldIndex == [0] && s.settable
    ensures ClearAt(w, Single(s), schema, [name], false) == Ok(Single(s.(value := ClearedValue(s))))
  {
    assert (map[[0] := s])[[0] := s.(value := ClearedValue(s))] == map[[0] := s.(value := ClearedValue(s))];
  }

  lemma ClearInSingle(w: World, schema: Schema, name: string, below: string, s: Slot, cleared: Value)
    requires name in schema.relationships && schema.relationships[name].fieldIndex == [0]
    requires var r := schema.relationships[name].relatedSchema;
             && r.Some? && r.value in w.schemas
             && ClearAt(w, s.value, w.schemas[r.value], [below], false) == Ok(cleared)
    ensures ClearAt(w, Single(s), schema, [name, below], false) == Ok(Single(s.(value := cleared)))
  {
    assert [name, below][1..] == [below];
    assert (map[[0] := s])[[0] := s.(value := cleared)] == map[[0] := s.(value := cleared)];
  }

  /** Overrides can make clears overlap: a document with [] for a relation and for one below it. */
  lemma OverridesOverlap(types: InputTypes, root: PathType)
    ensures var overrides := map["a" := "A", "b" := "A.B"];
            var selected, picked := ["A", "A.B"], [Some("a"), Some("b")];
            var document := PatchDocument(Some(map["a" := Array([]), "b" := Array([])]));
            && Usable(types, root, selected, overrides) && Represents(types, root, selected, overrides, overrides)
            && StrictlySorted(selected) && (forall r :: r in selected <==> Requested(document, overrides, r))
            && Picks(overrides, selected, picked)
            && ClearsOf(document, selected, picked) == [Clear(["A"], false), Clear(["A", "B"], false)]
  {
    var selected, picked := ["A", "A.B"], [Some("a"), Some("b")];
    var document := PatchDocument(Some(map["a" := Array([]), "b" := Array([])]));
    OverridesAreUsable(types, root);
    OverlapSelection();
    SplitsOfOverlap();
    hide Usable, Represents, Split, Less, Picks, Requested, StrictlySorted;
    assert ["a"][1..] == [] && ["b"][1..] == [];
    assert document.IsEmptyArray("a") && document.IsEmptyArray("b");
    assert ClearFor(document, "A", Some("a")) == [Clear(["A"], false)];
    assert ClearFor(document, "A.B", Some("b")) == [Clear(["A", "B"], false)];
    ClearsOfSnoc(document, [], [], "A", Some("a"));
    ClearsOfSnoc(document, ["A"], [Some("a")], "A.B", Some("b"));
    assert ["A"] + ["A.B"] == selected && [Some("a")] + [Some("b")] == picked;
  }

  lemma OverlapSelection()
    ensures var overrides := map["a" := "A", "b" := "A.B"];
            var selected := ["A", "A.B"];
            var document := PatchDocument(Some(map["a" := Array([]), "b" := Array([])]));
            && StrictlySorted(selected) && (forall r :: r in selected <==> Requested(document, overrides, r))
            && Picks(overrides, selected, [Some("a"), Some("b")])
  {
    var overrides := map["a" := "A", "b" := "A.B"];
    var document := PatchDocument(Some(map["a" := Array([]), "b" := Array([])]));
    assert Less("A", "A.B") by {
      LessThanExtension("A", ".B");
      assert "A" + ".B" == "A.B";
    }
    SplitsOfOverlap();
    hide Split, Less;
    assert ["a"][1..] == [] && ["b"][1..] == [];
    assert overrides["a"] == "A" && overrides["b"] == "A.B";
    assert "A" in overrides.Values && "A.B" in overrides.Values;
    assert document.Has("a") && document.Has("b");
  }

  lemma OverridesAreUsable(types: InputTypes, root: PathType)
    ensures var overrides := map["a" := "A", "b" := "A.B"];
            Usable(types, root, ["A", "A.B"], overrides) && Represents(types, root, ["A", "A.B"], overrides, overrides)
  {
    var overrides := map["a" := "A", "b" := "A.B"];
    hide JsonPath;
    assert overrides["a"] == "A" && overrides["b"] == "A.B";
    assert Overridden(overrides, "A") && Overridden(overrides, "A.B");
  }

  lemma SplitsOfOverlap()
    ensures Split("a", '.') == ["a"] && Split("b", '.') == ["b"] && Split("A", '.') == ["A"]
      && Split("A.B", '.') == ["A", "B"]
  {
    SplitWhole("a", '.');
    SplitWhole("b", '.');
    SplitWhole("A", '.');
    SplitWhole("B", '.');
    SplitAppend("A", "B", '.');
    assert "A" + "." + "B" == "A.B";
  }

  /** With these clears, on a struct held by value that has a slice inside, the code leaves the slice
      empty, and the other order would leave it nil. */
  lemma OverlapMatters(w: World, v: Value, schema: Schema)
    requires w ==
      World(map[], map[1 := Schema("inner", None, [], map["B" := Relation("B", HasMany, [0], 0, None, "")])])
    requires schema == Schema("outer", None, [], map["A" := Relation("A", HasOne, [0], 0, Some(1), "")])
    requires var inner := Single(Slot(true, Nil, true, Nil)); v == Single(Slot(false, inner, true, inner))
    ensures var upper, lower := Clear(["A"], false), Clear(["A", "B"], false);
      && Sound(w, schema)
      && ClearSequence(w, v, schema, [lower, upper]) == Ok(v)
      && ClearSequence(w, v, schema, [upper, lower]).Ok? && ClearSequence(w, v, schema, [upper, lower]) != Ok(v)
  {
    hide ClearAt, ClearSequence;
    var upper, lower := Clear(["A"], false), Clear(["A", "B"], false);
    var slice := Slot(true, Nil, true, Nil);
    var emptied := Single(slice.(value := Elems([])));
    var slot := Slot(false, Single(slice), true, Single(slice));
    ClearSingle(w, w.schemas[1], "B", slice);
    ClearSingle(w, schema, "A", slot);
    ClearInSingle(w, schema, "A", "B", slot, emptied);
    ClearSingle(w, schema, "A", slot.(value := emptied));
    SequencePair(w, v, schema, upper, lower);
    SequencePair(w, v, schema, lower, upper);
    assert emptied.fields[[0]] != slice;
    assert Single(slot.(value := emptied)).fields[[0]] != v.fields[[0]];
  }
}
