/**
 What reflection and SQLR's schema parser tell the library about entity types: struct types with
 their direct fields, and schemas with columns and relationships addressed by field index. Types
 and schemas refer to each other by name, so the graph they form may be cyclic.
 */
module GoModel {
  import opened Wrappers

  type TypeId = nat
  type SchemaId = nat

  /** A field index as in `reflect.StructField.Index`: one number per embedding level. */
  type Index = seq<nat>

  /** The kinds of Go type the library distinguishes. `Collection` stands for arrays, slices and
      maps other than byte slices; `valueSemantics` says whether one implements driver.Valuer or
      sql.Scanner. `Unsupported` stands for channels, functions, interfaces and complex numbers. */
  datatype GoType =
    | Pointer(elem: GoType)
    | Struct(id: TypeId)
    | Scalar
    | Bytes
    | Collection(valueSemantics: bool)
    | Unsupported

  /** `unwrapFieldType` and `indirectQueryType`. */
  function Indirect(t: GoType): GoType {
    match t
    case Pointer(elem) => Indirect(elem)
    case _ => t
  }

  /** A direct field of a struct type; `tag` is the raw value of its `sqlh` struct tag. */
  datatype StructField = StructField(name: string, typ: GoType, anonymous: bool, exported: bool, tag: string)

  datatype RelationKind = HasOne | HasMany | BelongsTo | ManyToMany

  /** `relatedSchema` is None when `ResolveRelatedSchema` fails. */
  datatype Relation = Relation(name: string, kind: RelationKind, fieldIndex: Index, relatedType: TypeId,
                               relatedSchema: Option<SchemaId>, foreignKey: string)

  datatype Column = Column(name: string, fieldIndex: Index)

  datatype Schema = Schema(table: string, primaryKey: Option<string>, columns: seq<Column>,
                           relationships: map<string, Relation>)

  datatype World = World(types: map<TypeId, seq<StructField>>, schemas: map<SchemaId, Schema>) {
    function Fields(t: TypeId): seq<StructField> {
      if t in types then types[t] else []
    }

    /** Every type a field or relationship leads to is known, and so is every resolvable schema. */
    ghost predicate Closed() {
      && (forall t, i :: t in types && 0 <= i < |types[t]| && Indirect(types[t][i].typ).Struct? ==>
            Indirect(types[t][i].typ).id in types)
      && (forall s :: s in schemas ==> SchemaClosed(schemas[s]))
    }

    ghost predicate SchemaClosed(s: Schema) {
      forall r :: r in s.relationships ==>
        && s.relationships[r].relatedType in types
        && (s.relationships[r].relatedSchema.Some? ==> s.relationships[r].relatedSchema.value in schemas)
    }
  }

  /** `queryColumnAtIndex`: the first column stored at exactly this index, if a value of the
      field's type can be compared in SQL. */
  function ColumnAtIndex(columns: seq<Column>, index: Index, t: GoType): Option<string> {
    if columns == [] then None
    else if columns[0].fieldIndex != index then ColumnAtIndex(columns[1..], index, t)
    else
      match Indirect(t)
      case Unsupported => None
      case Collection(false) => None
      case _ => Some(columns[0].name)
  }

  /** The first column stored at an index. */
  ghost predicate StoredAt(columns: seq<Column>, index: Index, k: int) {
    0 <= k < |columns| && columns[k].fieldIndex == index && forall j :: 0 <= j < k ==> columns[j].fieldIndex != index
  }

  /** A value of the type can be compared in SQL. */
  predicate SqlComparable(t: GoType) {
    match Indirect(t)
    case Unsupported => false
    case Collection(valueSemantics) => valueSemantics
    case _ => true
  }

  lemma {:induction false} ColumnAtIndexIsFirst(columns: seq<Column>, index: Index, t: GoType, name: string)
    ensures ColumnAtIndex(columns, index, t) == Some(name) <==>
      SqlComparable(t) && exists k :: StoredAt(columns, index, k) && columns[k].name == name
  {
    if columns != [] {
      if columns[0].fieldIndex == index {
        assert forall k :: StoredAt(columns, index, k) ==> k == 0;
        assert StoredAt(columns, index, 0);
      } else {
        ColumnAtIndexIsFirst(columns[1..], index, t, name);
        forall k ensures StoredAt(columns, index, k) <==> k > 0 && StoredAt(columns[1..], index, k - 1) {
          assert forall j :: 1 <= j < |columns| ==> columns[j] == columns[1..][j - 1];
        }
        if k :| StoredAt(columns, index, k) && columns[k].name == name {
          assert columns[1..][k - 1] == columns[k];
        }
        if k :| StoredAt(columns[1..], index, k) && columns[1..][k].name == name {
          assert StoredAt(columns, index, k + 1) && columns[k + 1] == columns[1..][k];
        }
      }
    }
  }
}
