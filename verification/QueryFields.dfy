/**
 The field side of query_fields.go: how public names become qualified columns, automatically from
 the entity's visible fields or from configured Go paths, and the index they are looked up in.
 */
module QueryFields {
  import opened FieldNames
  import opened GoModel
  import opened Text
  import opened Wrappers
  import TagSyntax

  datatype QueryField = QueryField(column: string, relation: string)

  datatype FieldError =
    | BadIdentifier
    | BadPath
    | UnsupportedRelation
    | NoPrimaryKey
    | UnknownField
    | NotMapped
    | BadTag(error: TagSyntax.TagError)
    | Ambiguous(previous: (string, string), name: string, path: string)

  // ----- identifiers ---------------------------------------------------------------------------

  predicate IsLetter(c: char) {
    'A' <= c <= 'Z' || 'a' <= c <= 'z' || c == '_'
  }

  /** The `queryIdentifier` pattern. */
  predicate IsIdentifier(s: string) {
    s != "" && IsLetter(s[0]) && forall i :: 0 < i < |s| ==> IsLetter(s[i]) || '0' <= s[i] <= '9'
  }

  /** The `queryGoPath` pattern: identifiers joined by dots. */
  predicate IsGoPath(path: string) {
    var parts := Split(path, '.');
    forall i :: 0 <= i < |parts| ==> IsIdentifier(parts[i])
  }

  /** `queryMappedField`. */
  function MappedField(qualifier: string, column: string, relation: string): Result<QueryField, FieldError> {
    if IsIdentifier(qualifier) && IsIdentifier(column) then Ok(QueryField(qualifier + "." + column, relation))
    else Err(BadIdentifier)
  }

  // ----- Go field lookup -----------------------------------------------------------------------

  /** The types with what reflection adds to their direct fields: the promoted field a name that
      is no direct field selects, and the indexes `reflect.VisibleFields` lists. */
  datatype Reflection = Reflection(world: World, promoted: map<TypeId, map<string, Index>>,
    visible: map<TypeId, seq<Index>>) {

    /** The direct field with a name. */
    function Direct(t: TypeId, name: string, from: nat): Option<nat>
      requires from <= |world.Fields(t)|
      ensures var i := Direct(t, name, from); i.Some? ==>
        from <= i.value < |world.Fields(t)| && world.Fields(t)[i.value].name == name
      decreases |world.Fields(t)| - from
    {
      if from == |world.Fields(t)| then None
      else if world.Fields(t)[from].name == name then Some(from)
      else Direct(t, name, from + 1)
    }

    /** `FieldByIndex` on types, through pointers to embedded structs. */
    function FieldAt(t: TypeId, index: Index): Option<StructField>
      decreases |index|
    {
      if index == [] || index[0] >= |world.Fields(t)| then None
      else
        var f := world.Fields(t)[index[0]];
        if |index| == 1 then Some(f)
        else if Indirect(f.typ).Struct? then FieldAt(Indirect(f.typ).id, index[1..])
        else None
    }

    /** `FieldByName`. */
    function FieldByName(t: TypeId, name: string): Option<(Index, StructField)> {
      var direct := Direct(t, name, 0);
      if direct.Some? then Some(([direct.value], world.Fields(t)[direct.value]))
      else if t in promoted && name in promoted[t] then
        var f :- FieldAt(t, promoted[t][name]);
        Some((promoted[t][name], f))
      else None
    }

    /** Exported field names are not repeated within a struct. */
    ghost predicate ExportedUnique(t: TypeId) {
      var fields := world.Fields(t);
      forall i, j | 0 <= i < |fields| && 0 <= j < |fields| && i != j ::
        fields[i].exported ==> fields[i].name != fields[j].name
    }
  }

  /** What `queryGoFieldIndex` computes from a starting type. */
  function GoFieldIndex(r: Reflection, t: GoType, parts: seq<string>): Option<(Index, GoType)>
    decreases |parts|
  {
    if parts == [] then Some(([], t))
    else if !Indirect(t).Struct? then None
    else
      var found :- r.FieldByName(Indirect(t).id, parts[0]);
      if !found.1.exported then None else Onto(found.0, GoFieldIndex(r, found.1.typ, parts[1..]))
  }

  function Onto(index: Index, rest: Option<(Index, GoType)>): Option<(Index, GoType)> {
    match rest
    case Some((more, t)) => Some((index + more, t))
    case None => None
  }

  lemma OntoTwice(a: Index, b: Index, rest: Option<(Index, GoType)>)
    ensures Onto(a, Onto(b, rest)) == Onto(a + b, rest)
    ensures Onto([], rest) == rest
  {
    if rest.Some? {
      assert a + (b + rest.value.0) == (a + b) + rest.value.0;
      assert [] + rest.value.0 == rest.value.0;
    }
  }

  method QueryGoFieldIndex(r: Reflection, entity: GoType, parts: seq<string>) returns (result: Option<(Index, GoType)>)
    ensures result == GoFieldIndex(r, entity, parts)
  {
    hide Reflection.FieldByName;
    var index: Index, t := [], entity;
    assert parts[0..] == parts;
    OntoTwice([], [], GoFieldIndex(r, entity, parts));
    for i := 0 to |parts|
      invariant GoFieldIndex(r, entity, parts) == Onto(index, GoFieldIndex(r, t, parts[i..]))
    {
      assert parts[i..][0] == parts[i] && parts[i..][1..] == parts[i + 1..];
      if !Indirect(t).Struct? {
        return None;
      }
      var field := r.FieldByName(Indirect(t).id, parts[i]);
      if field.None? || !field.value.1.exported {
        return None;
      }
      OntoTwice(index, field.value.0, GoFieldIndex(r, field.value.1.typ, parts[i + 1..]));
      index, t := index + field.value.0, field.value.1.typ;
    }
    assert index + [] == index;
    return Some((index, t));
  }

  /** A name leads from a struct to the type of its exported field with this name, found at an index. */
  ghost predicate LeadsBy(r: Reflection, t: GoType, name: string, step: Index, next: GoType) {
    && Indirect(t).Struct?
    && var found := r.FieldByName(Indirect(t).id, name);
       found.Some? && found.value.0 == step && found.value.1.exported && found.value.1.typ == next
  }

  /** The parts of a path lead from type to type. */
  ghost predicate Leads(r: Reflection, start: GoType, parts: seq<string>, types: seq<GoType>, steps: seq<Index>) {
    && |types| == |parts| + 1 && |steps| == |parts| && types[0] == start
    && forall k :: 0 <= k < |parts| ==> LeadsBy(r, types[k], parts[k], steps[k], types[k + 1])
  }

  function Flat(steps: seq<Index>): Index {
    if steps == [] then [] else steps[0] + Flat(steps[1..])
  }

  /** What a path is found at is where its parts lead. */
  lemma {:induction false} FoundLeads(r: Reflection, t: GoType, parts: seq<string>)
    returns (types: seq<GoType>, steps: seq<Index>)
    requires GoFieldIndex(r, t, parts).Some?
    ensures Leads(r, t, parts, types, steps)
    ensures GoFieldIndex(r, t, parts) == Some((Flat(steps), types[|parts|]))
    decreases |parts|
  {
    if parts == [] {
      types, steps := [t], [];
    } else {
      var found := r.FieldByName(Indirect(t).id, parts[0]).value;
      var ts, ss := FoundLeads(r, found.1.typ, parts[1..]);
      types, steps := [t] + ts, [found.0] + ss;
      assert steps[1..] == ss;
      assert LeadsBy(r, t, parts[0], found.0, ts[0]);
      hide LeadsBy;
      forall k | 0 <= k < |parts| ensures LeadsBy(r, types[k], parts[k], steps[k], types[k + 1]) {
        if k > 0 {
          assert LeadsBy(r, ts[k - 1], parts[1..][k - 1], ss[k - 1], ts[k]);
        }
      }
    }
  }

  lemma {:induction false} LeadsFound(r: Reflection, t: GoType, parts: seq<string>, types: seq<GoType>,
                                      steps: seq<Index>)
    requires Leads(r, t, parts, types, steps)
    ensures GoFieldIndex(r, t, parts) == Some((Flat(steps), types[|parts|]))
    decreases |parts|
  {
    if parts != [] {
      assert LeadsBy(r, types[0], parts[0], steps[0], types[1]);
      assert Leads(r, types[1], parts[1..], types[1..], steps[1..]) by {
        hide LeadsBy;
        forall k | 0 <= k < |parts| - 1
          ensures LeadsBy(r, types[1..][k], parts[1..][k], steps[1..][k], types[1..][k + 1])
        {
          assert LeadsBy(r, types[k + 1], parts[k + 1], steps[k + 1], types[k + 2]);
        }
      }
      LeadsFound(r, types[1], parts[1..], types[1..], steps[1..]);
    }
  }

  /** The Go names along an index. */
  function FieldPath(r: Reflection, t: TypeId, index: Index): (names: seq<string>)
    requires r.FieldAt(t, index).Some?
    ensures |names| == |index|
    decreases |index|
  {
    var f := r.world.Fields(t)[index[0]];
    if |index| == 1 then [f.name] else [f.name] + FieldPath(r, Indirect(f.typ).id, index[1..])
  }

  /** `queryFieldPath`. */
  method QueryFieldPath(r: Reflection, t: TypeId, index: Index) returns (path: string)
    requires r.FieldAt(t, index).Some?
    ensures path == Join(FieldPath(r, t, index), '.')
  {
    var parts: seq<string>, current := [], t;
    for k := 0 to |index|
      invariant k < |index| ==>
        r.FieldAt(current, index[k..]).Some? && FieldPath(r, t, index) == parts + FieldPath(r, current, index[k..])
      invariant k == |index| ==> FieldPath(r, t, index) == parts
    {
      assert index[k..][0] == index[k] && index[k..][1..] == index[k + 1..];
      var field := r.world.Fields(current)[index[k]];
      parts := parts + [field.name];
      if k + 1 < |index| {
        current := Indirect(field.typ).id;
      }
    }
    return Join(parts, '.');
  }

  // ----- resolving a configured path -----------------------------------------------------------

  /** `resolveQueryMappedScalar`. */
  function MappedScalar(r: Reflection, entity: GoType, schema: Schema, parts: seq<string>, qualifier: string,
                        relation: string):
    Result<QueryField, FieldError>
  {
    match GoFieldIndex(r, entity, parts)
    case None => Err(UnknownField)
    case Some((index, t)) =>
      match ColumnAtIndex(schema.columns, index, t)
      case None => Err(NotMapped)
      case Some(column) => MappedField(qualifier, column, relation)
  }

  /** `resolveQueryRelationPath`: one direct to-one relation, then a column of the related entity. */
  function RelationField(r: Reflection, schema: Schema, relation: Relation, parts: seq<string>):
    Result<QueryField, FieldError>
    requires parts != []
  {
    if |parts| < 2 || !(relation.kind == HasOne || relation.kind == BelongsTo) then Err(UnsupportedRelation)
    else if relation.relatedSchema.None? || relation.relatedSchema.value !in r.world.schemas
      then Err(UnsupportedRelation)
    else
      var related := r.world.schemas[relation.relatedSchema.value];
      if schema.primaryKey.None? || related.primaryKey.None? then Err(NoPrimaryKey)
      else if !(IsIdentifier(schema.table) && IsIdentifier(schema.primaryKey.value) && IsIdentifier(related.table)
                && IsIdentifier(related.primaryKey.value) && IsIdentifier(relation.foreignKey)
                  && IsIdentifier(relation.name))
      then Err(BadIdentifier)
      else MappedScalar(r, Struct(relation.relatedType), related, parts[1..], relation.name, relation.name)
  }

  /** `resolveQueryGoPath`. */
  function GoPathField(r: Reflection, entity: TypeId, schema: Schema, path: string): Result<QueryField, FieldError> {
    if !IsGoPath(path) then Err(BadPath)
    else
      var parts := Split(path, '.');
      var member := r.FieldByName(entity, parts[0]);
      if parts[0] in schema.relationships && member.Some? && member.value.0 == schema.relationships[parts[0]].fieldIndex
      then RelationField(r, schema, schema.relationships[parts[0]], parts)
      else MappedScalar(r, Struct(entity), schema, parts, schema.table, "")
  }

  /** The parts lead to the field of a column, and `column` is its name: of the first column stored there. */
  ghost predicate LeadsToColumn(r: Reflection, start: GoType, parts: seq<string>, columns: seq<Column>,
                                column: string)
  {
    exists types, steps, k ::
      && Leads(r, start, parts, types, steps) && StoredAt(columns, Flat(steps), k)
      && SqlComparable(types[|parts|]) && columns[k].name == column
  }

  /** A relation that a path may go through: direct, to-one, with a known schema, primary keys, and
      identifiers only. */
  ghost predicate Joinable(r: Reflection, schema: Schema, relation: Relation) {
    && (relation.kind == HasOne || relation.kind == BelongsTo)
    && relation.relatedSchema.Some? && relation.relatedSchema.value in r.world.schemas
    && var related := r.world.schemas[relation.relatedSchema.value];
    && schema.primaryKey.Some? && related.primaryKey.Some?
    && IsIdentifier(schema.table) && IsIdentifier(schema.primaryKey.value)
    && IsIdentifier(related.table) && IsIdentifier(related.primaryKey.value)
    && IsIdentifier(relation.foreignKey) && IsIdentifier(relation.name)
  }

  /** The path starts with a relation: its first part names one, and the field of that name is its own. */
  ghost predicate StartsAtRelation(r: Reflection, entity: TypeId, schema: Schema, name: string) {
    && name in schema.relationships && r.FieldByName(entity, name).Some?
    && r.FieldByName(entity, name).value.0 == schema.relationships[name].fieldIndex
  }

  /** What a Go path selects: through a relation, a column of the related entity, qualified by the
      relation; otherwise a column of the entity, qualified by its table. */
  ghost predicate PathSelects(r: Reflection, entity: TypeId, schema: Schema, path: string, q: QueryField) {
    var parts := Split(path, '.');
    && IsGoPath(path)
    && exists column: string ::
         && IsIdentifier(column)
         && if StartsAtRelation(r, entity, schema, parts[0]) then
              var relation := schema.relationships[parts[0]];
              && |parts| >= 2 && Joinable(r, schema, relation)
              && LeadsToColumn(r, Struct(relation.relatedType), parts[1..],
                               r.world.schemas[relation.relatedSchema.value].columns, column)
              && q == QueryField(relation.name + "." + column, relation.name)
            else
              && IsIdentifier(schema.table)
              && LeadsToColumn(r, Struct(entity), parts, schema.columns, column)
              && q == QueryField(schema.table + "." + column, "")
  }

  lemma MappedScalarIs(r: Reflection, entity: GoType, schema: Schema, parts: seq<string>, qualifier: string,
                       relation: string, q: QueryField)
    ensures MappedScalar(r, entity, schema, parts, qualifier, relation) == Ok(q) <==>
      IsIdentifier(qualifier) && exists column: string ::
        && IsIdentifier(column) && LeadsToColumn(r, entity, parts, schema.columns, column)
        && q == QueryField(qualifier + "." + column, relation)
  {
    hide GoFieldIndex, ColumnAtIndex, IsIdentifier, SqlComparable, Leads, StoredAt;
    var found := GoFieldIndex(r, entity, parts);
    if found.Some? {
      var types, steps := FoundLeads(r, entity, parts);
      forall column: string
        ensures LeadsToColumn(r, entity, parts, schema.columns, column) <==>
                ColumnAtIndex(schema.columns, found.value.0, found.value.1) == Some(column)
      {
        ColumnAtIndexIsFirst(schema.columns, found.value.0, found.value.1, column);
        ColumnIsLedTo(r, entity, parts, schema.columns, column);
      }
    } else {
      forall types, steps | Leads(r, entity, parts, types, steps) ensures false {
        LeadsFound(r, entity, parts, types, steps);
      }
    }
  }

  lemma ColumnIsLedTo(r: Reflection, entity: GoType, parts: seq<string>, columns: seq<Column>, column: string)
    requires GoFieldIndex(r, entity, parts).Some?
    ensures var found := GoFieldIndex(r, entity, parts).value;
            LeadsToColumn(r, entity, parts, columns, column) <==>
            SqlComparable(found.1) && exists k :: StoredAt(columns, found.0, k) && columns[k].name == column
  {
    hide GoFieldIndex, SqlComparable, LeadsBy;
    var types, steps := FoundLeads(r, entity, parts);
    if LeadsToColumn(r, entity, parts, columns, column) {
      var ts, ss, k :| && Leads(r, entity, parts, ts, ss) && StoredAt(columns, Flat(ss), k)
                       && SqlComparable(ts[|parts|]) && columns[k].name == column;
      LeadsFound(r, entity, parts, ts, ss);
    }
  }

  /** A Go path resolves to a column exactly if it selects it, and is refused exactly if it selects none. */
  lemma GoPathResolves(r: Reflection, entity: TypeId, schema: Schema, path: string, q: QueryField)
    ensures GoPathField(r, entity, schema, path) == Ok(q) <==> PathSelects(r, entity, schema, path, q)
  {
    hide MappedScalar, LeadsToColumn, Split, IsGoPath, IsIdentifier, Reflection.FieldByName;
    var parts := Split(path, '.');
    MappedScalarIs(r, Struct(entity), schema, parts, schema.table, "", q);
    if parts[0] in schema.relationships {
      var relation := schema.relationships[parts[0]];
      if relation.relatedSchema.Some? && relation.relatedSchema.value in r.world.schemas && |parts| >= 2 {
        MappedScalarIs(r, Struct(relation.relatedType), r.world.schemas[relation.relatedSchema.value], parts[1..],
                       relation.name, relation.name, q);
      }
    }
  }

  /** The column of a public field is an identifier qualified by the base table, or by the to-one
      relation that has to be joined for it. */
  ghost predicate Qualified(table: string, q: QueryField) {
    exists column ::
      && IsIdentifier(column) && IsIdentifier(if q.relation == "" then table else q.relation)
      && q.column == (if q.relation == "" then table else q.relation) + "." + column
  }

  lemma MappedScalarQualified(r: Reflection, entity: GoType, schema: Schema, parts: seq<string>, table: string,
                              relation: string)
    ensures var q := MappedScalar(r, entity, schema, parts, if relation == "" then table else relation, relation);
            q.Ok? ==> Qualified(table, q.value) && q.value.relation == relation
  {
  }

  lemma GoPathQualified(r: Reflection, entity: TypeId, schema: Schema, path: string)
    ensures GoPathField(r, entity, schema, path).Ok? ==>
      Qualified(schema.table, GoPathField(r, entity, schema, path).value)
  {
    hide MappedScalar, Qualified;
    if IsGoPath(path) {
      var parts := Split(path, '.');
      MappedScalarQualified(r, Struct(entity), schema, parts, schema.table, "");
      if parts[0] in schema.relationships {
        var relation := schema.relationships[parts[0]];
        if relation.relatedSchema.Some? && relation.relatedSchema.value in r.world.schemas {
          MappedScalarQualified(r, Struct(relation.relatedType), r.world.schemas[relation.relatedSchema.value],
            parts[1..],
                                schema.table, relation.name);
        }
      }
    }
  }

  // ----- the index -----------------------------------------------------------------------------

  /** A scan of all registered names for one that is equal under simple case folding. */
  ghost function Scan(f: char -> char, registered: seq<(string, QueryField)>, name: string): Option<QueryField> {
    if registered == [] then None
    else if EqualFold(f, registered[0].0, name) then Some(registered[0].1)
    else Scan(f, registered[1..], name)
  }

  lemma {:induction false} ScanFinds(f: char -> char, registered: seq<(string, QueryField)>, name: string)
    ensures Scan(f, registered, name).Some? ==>
      exists i :: 0 <= i < |registered| && EqualFold(f, registered[i].0, name)
        && Scan(f, registered, name) == Some(registered[i].1)
    ensures Scan(f, registered, name).None? ==> forall i :: 0 <= i < |registered| ==>
      !EqualFold(f, registered[i].0, name)
  {
    if registered != [] && !EqualFold(f, registered[0].0, name) {
      ScanFinds(f, registered[1..], name);
      if Scan(f, registered[1..], name).Some? {
        var i :| 0 <= i < |registered[1..]| && EqualFold(f, registered[1..][i].0, name)
              && Scan(f, registered[1..], name) == Some(registered[1..][i].1);
        assert registered[i + 1] == registered[1..][i];
      } else {
        assert forall i :: 1 <= i < |registered| ==> registered[i] == registered[1..][i - 1];
      }
    }
  }

  /** The index holds exactly the registered names, each under its folded form. */
  ghost predicate Indexed(f: char -> char, fields: map<string, QueryField>, registered: seq<(string, QueryField)>)
    requires Unicode(f)
  {
    && (forall i :: 0 <= i < |registered| ==>
          Fold(f, registered[i].0) in fields && fields[Fold(f, registered[i].0)] == registered[i].1)
    && (forall key :: key in fields ==> exists i :: 0 <= i < |registered| && Fold(f, registered[i].0) == key)
  }

  ghost predicate Registered(f: char -> char, registered: seq<(string, QueryField)>, name: string) {
    exists i :: 0 <= i < |registered| && EqualFold(f, registered[i].0, name)
  }

  lemma FoldedIsRegistered(f: char -> char, fields: map<string, QueryField>, registered: seq<(string, QueryField)>,
                           name: string)
    requires Unicode(f) && Indexed(f, fields, registered)
    ensures Fold(f, name) in fields <==> Registered(f, registered, name)
  {
    forall i | 0 <= i < |registered|
      ensures Fold(f, registered[i].0) == Fold(f, name) <==> EqualFold(f, registered[i].0, name)
    {
      FoldDecides(f, registered[i].0, name);
    }
  }

  lemma IndexAdd(f: char -> char, fields: map<string, QueryField>, registered: seq<(string, QueryField)>,
                 name: string, field: QueryField)
    requires Unicode(f) && Indexed(f, fields, registered) && Fold(f, name) !in fields
    ensures Indexed(f, fields[Fold(f, name) := field], registered + [(name, field)])
  {
    hide Fold;
    var more, added := registered + [(name, field)], fields[Fold(f, name) := field];
    assert more[|registered|] == (name, field);
    forall key | key in added ensures exists i :: 0 <= i < |more| && Fold(f, more[i].0) == key {
      if key != Fold(f, name) {
        var i :| 0 <= i < |registered| && Fold(f, registered[i].0) == key;
        assert more[i] == registered[i];
      } else {
        assert Fold(f, more[|registered|].0) == key;
      }
    }
  }

  /** Looking a name up under its folded form. */
  ghost function FieldNamed(f: char -> char, fields: map<string, QueryField>, name: string): Option<QueryField>
    requires Unicode(f)
  {
    if Fold(f, name) in fields then Some(fields[Fold(f, name)]) else None
  }

  class QueryFieldResolver {
    const simpleFold: char -> char
    var fields: map<string, QueryField>
    var origins: map<string, (string, string)>
    ghost var registered: seq<(string, QueryField)>

    constructor (simpleFold: char -> char)
      requires Unicode(simpleFold)
      ensures Valid() && registered == [] && fields == map[] && this.simpleFold == simpleFold
    {
      this.simpleFold := simpleFold;
      fields, origins, registered := map[], map[], [];
    }

    ghost predicate Valid()
      reads this
    {
      Unicode(simpleFold) && origins.Keys == fields.Keys && Indexed(simpleFold, fields, registered)
    }

    /** `add`: refuses a name that is equal to a registered one under case folding. */
    method Add(name: string, path: string, field: QueryField) returns (error: Option<FieldError>)
      requires Valid()
      modifies this
      ensures Valid()
      ensures error.Some? <==> Registered(simpleFold, old(registered), name)
      ensures registered == if error.Some? then old(registered) else old(registered) + [(name, field)]
      ensures error.Some? ==> error.value.Ambiguous? && error.value.name == name && error.value.path == path
    {
      hide Fold, Registered;
      var key := FoldQueryFieldName(simpleFold, name);
      FoldedIsRegistered(simpleFold, fields, registered, name);
      if key in origins {
        return Some(Ambiguous(origins[key], name, path));
      }
      IndexAdd(simpleFold, fields, registered, name, field);
      origins := origins[key := (name, path)];
      fields := fields[key := field];
      registered := registered + [(name, field)];
      return None;
    }

    /** `r.fields[foldQueryFieldName(name)]`. */
    method Find(name: string) returns (field: Option<QueryField>)
      requires Valid()
      ensures field == FieldNamed(simpleFold, fields, name)
    {
      var key := FoldQueryFieldName(simpleFold, name);
      return if key in fields then Some(fields[key]) else None;
    }

    /** Looking a folded name up in the map. */
    ghost function Lookup(name: string): Option<QueryField>
      requires Valid()
      reads this
    {
      FieldNamed(simpleFold, fields, name)
    }

    /** The index agrees with a linear search by case-insensitive equality. */
    lemma LookupIsScan(name: string)
      requires Valid()
      ensures Lookup(name) == Scan(simpleFold, registered, name)
    {
      ScanFinds(simpleFold, registered, name);
      forall i | 0 <= i < |registered|
        ensures Fold(simpleFold, registered[i].0) == Fold(simpleFold, name) <==>
          EqualFold(simpleFold, registered[i].0, name)
      {
        FoldDecides(simpleFold, registered[i].0, name);
      }
    }
  }

  // ----- construction --------------------------------------------------------------------------

  /** `automaticQueryFieldName`: the value of the tag's `field` directive, or the Go name. */
  function AutomaticName(f: StructField): Result<string, FieldError> {
    match TagSyntax.Parse(TrimSpace(f.tag))
    case Err(e) => Err(BadTag(e))
    case Ok(ds) => Ok(FirstFieldDirective(ds, f.name))
  }

  function FirstFieldDirective(ds: seq<TagSyntax.Directive>, name: string): string {
    if ds == [] then name
    else if ds[0].name == TagSyntax.FIELD then ds[0].value
    else FirstFieldDirective(ds[1..], name)
  }

  method AutomaticQueryFieldName(f: StructField) returns (name: Result<string, FieldError>)
    ensures name == AutomaticName(f)
  {
    var directives := TagSyntax.ParseSqlhTagValues(TrimSpace(f.tag));
    if directives.Err? {
      return Err(BadTag(directives.error));
    }
    var ds := directives.value;
    assert ds[0..] == ds;
    for i := 0 to |ds|
      invariant FirstFieldDirective(ds, f.name) == FirstFieldDirective(ds[i..], f.name)
    {
      assert ds[i..][0] == ds[i] && ds[i..][1..] == ds[i + 1..];
      if ds[i].name == TagSyntax.FIELD {
        return Ok(ds[i].value);
      }
    }
    return Ok(f.name);
  }

  /** What a visible field contributes: nothing, a public name with its column, or an error. */
  function AutomaticField(r: Reflection, entity: TypeId, schema: Schema, index: Index):
    Result<Option<(string, QueryField)>, FieldError>
  {
    match r.FieldAt(entity, index)
    case None => Ok(None)
    case Some(member) =>
      if !member.exported then Ok(None)
      else
        match ColumnAtIndex(schema.columns, index, member.typ)
        case None => Ok(None)
        case Some(column) =>
          var name :- AutomaticName(member);
          if name == "-" then Ok(None)
          else
            var field :- MappedField(schema.table, column, "");
            Ok(Some((name, field)))
  }

  /** The public name of a field: the value of the first `field` directive of its tag, or its Go name if
      there is none. */
  ghost predicate PublicName(f: StructField, name: string) {
    var parsed := TagSyntax.Parse(TrimSpace(f.tag));
    && parsed.Ok?
    && if exists d :: d in parsed.value && d.name == "field" then
         exists i :: 0 <= i < |parsed.value| && parsed.value[i].name == "field" && parsed.value[i].value == name
           && forall j :: 0 <= j < i ==> parsed.value[j].name != "field"
       else name == f.name
  }

  /** An exported field at the index of a column that can be compared in SQL. */
  ghost predicate Mapped(r: Reflection, entity: TypeId, schema: Schema, index: Index, column: string) {
    && r.FieldAt(entity, index).Some? && r.FieldAt(entity, index).value.exported
    && SqlComparable(r.FieldAt(entity, index).value.typ)
    && exists k :: StoredAt(schema.columns, index, k) && schema.columns[k].name == column
  }

  /** A visible field offers its column under a public name other than "-". */
  ghost predicate Offers(r: Reflection, entity: TypeId, schema: Schema, index: Index, name: string, q: QueryField) {
    exists column: string ::
      && Mapped(r, entity, schema, index, column) && PublicName(r.FieldAt(entity, index).value, name) && name != "-"
      && IsIdentifier(schema.table) && IsIdentifier(column) && q == QueryField(schema.table + "." + column, "")
  }

  /** A mapped field whose tag is malformed, or whose public name would stand for no identifier. */
  ghost predicate Faulty(r: Reflection, entity: TypeId, schema: Schema, index: Index) {
    exists column: string ::
      && Mapped(r, entity, schema, index, column)
      && var f := r.FieldAt(entity, index).value;
      && (TagSyntax.Parse(TrimSpace(f.tag)).Err?
          || (!PublicName(f, "-") && !(IsIdentifier(schema.table) && IsIdentifier(column))))
  }

  lemma {:induction false} FirstFieldIs(ds: seq<TagSyntax.Directive>, goName: string, name: string)
    ensures FirstFieldDirective(ds, goName) == name <==>
      if exists d :: d in ds && d.name == "field" then
        exists i :: 0 <= i < |ds| && ds[i].name == "field" && ds[i].value == name
          && forall j :: 0 <= j < i ==> ds[j].name != "field"
      else name == goName
  {
    if ds != [] {
      if ds[0].name == "field" {
        assert ds[0] in ds;
      } else {
        FirstFieldIs(ds[1..], goName, name);
        assert ds == [ds[0]] + ds[1..];
        if i :| 0 <= i < |ds| && ds[i].name == "field" && ds[i].value == name
                && forall j :: 0 <= j < i ==> ds[j].name != "field" {
          assert ds[1..][i - 1] == ds[i];
          assert forall j :: 0 <= j < i - 1 ==> ds[1..][j] == ds[j + 1];
        }
        if i :| 0 <= i < |ds[1..]| && ds[1..][i].name == "field" && ds[1..][i].value == name
                && forall j :: 0 <= j < i ==> ds[1..][j].name != "field" {
          assert ds[i + 1] == ds[1..][i];
          assert forall j :: 1 <= j < i + 1 ==> ds[j] == ds[1..][j - 1];
        }
      }
    }
  }

  lemma AutomaticNameIs(f: StructField, name: string)
    ensures AutomaticName(f) == Ok(name) <==> PublicName(f, name)
  {
    hide FirstFieldDirective, TagSyntax.Parse, TrimSpace;
    var parsed := TagSyntax.Parse(TrimSpace(f.tag));
    if parsed.Ok? {
      FirstFieldIs(parsed.value, f.name, name);
    }
  }

  /** A field contributes exactly what it offers, and is in error exactly if it is faulty. */
  lemma AutomaticFieldIs(r: Reflection, entity: TypeId, schema: Schema, index: Index)
    ensures AutomaticField(r, entity, schema, index).Err? <==> Faulty(r, entity, schema, index)
    ensures forall name, q ::
      AutomaticField(r, entity, schema, index) == Ok(Some((name, q))) <==> Offers(r, entity, schema, index, name, q)
  {
    hide AutomaticName, PublicName, ColumnAtIndex, SqlComparable, StoredAt, IsIdentifier, TagSyntax.Parse,
      Reflection.FieldAt;
    var member := r.FieldAt(entity, index);
    if member.Some? {
      var f := member.value;
      assert AutomaticName(f).Err? <==> TagSyntax.Parse(TrimSpace(f.tag)).Err? by {
        NameOrError(f);
      }
      forall column: string
        ensures Mapped(r, entity, schema, index, column) <==>
                f.exported && ColumnAtIndex(schema.columns, index, f.typ) == Some(column)
      {
        ColumnAtIndexIsFirst(schema.columns, index, f.typ, column);
      }
      forall name: string ensures AutomaticName(f) == Ok(name) <==> PublicName(f, name) {
        AutomaticNameIs(f, name);
      }
      hide Mapped;
      var column := ColumnAtIndex(schema.columns, index, f.typ);
      if f.exported && column.Some? {
        assert Mapped(r, entity, schema, index, column.value);
      }
    }
  }

  lemma NameOrError(f: StructField)
    ensures AutomaticName(f).Err? <==> TagSyntax.Parse(TrimSpace(f.tag)).Err?
  {
  }

  ghost predicate AllQualified(table: string, registered: seq<(string, QueryField)>) {
    forall i :: 0 <= i < |registered| ==> Qualified(table, registered[i].1)
  }

  /** The public names are pairwise different under case folding. */
  ghost predicate Distinct(f: char -> char, registered: seq<(string, QueryField)>) {
    forall i, j :: 0 <= i < j < |registered| ==> !EqualFold(f, registered[i].0, registered[j].0)
  }

  /** The names and columns of the visible fields from `n` on, if none is in error. */
  ghost function AutomaticFields(r: Reflection, entity: TypeId, schema: Schema, indexes: seq<Index>):
    Result<seq<(string, QueryField)>, FieldError>
  {
    if indexes == [] then Ok([])
    else
      var before :- AutomaticFields(r, entity, schema, indexes[..|indexes| - 1]);
      var last :- AutomaticField(r, entity, schema, indexes[|indexes| - 1]);
      Ok(before + if last.Some? then [last.value] else [])
  }

  lemma {:induction false} AutomaticFieldsPrefix(r: Reflection, entity: TypeId, schema: Schema, indexes: seq<Index>,
        n: nat)
    requires n <= |indexes| && AutomaticFields(r, entity, schema, indexes).Ok?
    ensures AutomaticFields(r, entity, schema, indexes[..n]).Ok?
    ensures AutomaticFields(r, entity, schema, indexes[..n]).value <= AutomaticFields(r, entity, schema, indexes).value
    decreases |indexes|
  {
    if n == |indexes| {
      assert indexes[..n] == indexes;
    } else {
      AutomaticFieldsPrefix(r, entity, schema, indexes[..|indexes| - 1], n);
      assert indexes[..|indexes| - 1][..n] == indexes[..n];
    }
  }

  lemma DistinctPrefix(f: char -> char, a: seq<(string, QueryField)>, b: seq<(string, QueryField)>)
    requires a <= b && Distinct(f, b)
    ensures Distinct(f, a)
  {
  }

  lemma DistinctAdd(f: char -> char, a: seq<(string, QueryField)>, entry: (string, QueryField))
    ensures Distinct(f, a + [entry]) <==> Distinct(f, a) && !Registered(f, a, entry.0)
  {
    var b := a + [entry];
    if Distinct(f, b) {
      forall i | 0 <= i < |a| ensures !EqualFold(f, a[i].0, entry.0) {
        assert b[i] == a[i] && b[|a|] == entry;
      }
      DistinctPrefix(f, a, b);
    }
  }

  /** No two of the fields offer public names that are equal under case folding. */
  ghost predicate OffersDistinct(r: Reflection, f: char -> char, entity: TypeId, schema: Schema, indexes: seq<Index>) {
    forall i, j, a, b, p, q ::
      0 <= i < j < |indexes| && Offers(r, entity, schema, indexes[i], a, p)
        && Offers(r, entity, schema, indexes[j], b, q)
      ==> !EqualFold(f, a, b)
  }

  /** The visible fields are in no error exactly if none is faulty; then they register exactly what they
      offer, under distinct names exactly if they offer distinct ones. */
  lemma {:induction false} FieldsOffered(r: Reflection, f: char -> char, entity: TypeId, schema: Schema,
                                         indexes: seq<Index>)
    ensures var all := AutomaticFields(r, entity, schema, indexes);
            && (all.Ok? <==> forall i :: 0 <= i < |indexes| ==> !Faulty(r, entity, schema, indexes[i]))
            && (all.Ok? ==>
                  && (forall name, q :: (name, q) in all.value <==>
                        exists i :: 0 <= i < |indexes| && Offers(r, entity, schema, indexes[i], name, q))
                  && (Distinct(f, all.value) <==> OffersDistinct(r, f, entity, schema, indexes)))
    decreases |indexes|
  {
    hide AutomaticField, Offers, Faulty, EqualFold, Distinct, OffersDistinct;
    if indexes == [] {
      NothingOffered(r, f, entity, schema);
    } else {
      var init, last := indexes[..|indexes| - 1], indexes[|indexes| - 1];
      FieldsOffered(r, f, entity, schema, init);
      AutomaticFieldIs(r, entity, schema, last);
      assert indexes == init + [last];
      var before, own := AutomaticFields(r, entity, schema, init), AutomaticField(r, entity, schema, last);
      assert AutomaticFields(r, entity, schema, indexes).Ok? <==> before.Ok? && own.Ok?;
      assert (forall i :: 0 <= i < |indexes| ==> !Faulty(r, entity, schema, indexes[i])) <==>
        !Faulty(r, entity, schema, last) && forall i :: 0 <= i < |init| ==> !Faulty(r, entity, schema, init[i]);
      if before.Ok? && own.Ok? {
        var all := before.value + if own.value.Some? then [own.value.value] else [];
        assert AutomaticFields(r, entity, schema, indexes) == Ok(all);
        hide AutomaticFields;
        OffersAdd(r, f, entity, schema, init, last, before.value);
      }
    }
  }

  lemma NothingOffered(r: Reflection, f: char -> char, entity: TypeId, schema: Schema)
    ensures AutomaticFields(r, entity, schema, []) == Ok([])
    ensures Distinct(f, []) && OffersDistinct(r, f, entity, schema, [])
  {
  }

  lemma OffersAdd(r: Reflection, f: char -> char, entity: TypeId, schema: Schema, init: seq<Index>, last: Index,
                  before: seq<(string, QueryField)>)
    requires AutomaticField(r, entity, schema, last).Ok?
    requires forall name, q :: (name, q) in before <==>
      exists i :: 0 <= i < |init| && Offers(r, entity, schema, init[i], name, q)
    requires Distinct(f, before) <==> OffersDistinct(r, f, entity, schema, init)
    ensures var own := AutomaticField(r, entity, schema, last).value;
            var all := before + if own.Some? then [own.value] else [];
            && (forall name, q :: (name, q) in all <==>
                  exists i :: 0 <= i < |init| + 1 && Offers(r, entity, schema, (init + [last])[i], name, q))
            && (Distinct(f, all) <==> OffersDistinct(r, f, entity, schema, init + [last]))
  {
    AutomaticFieldIs(r, entity, schema, last);
    hide AutomaticField, Offers, EqualFold;
    var own, indexes := AutomaticField(r, entity, schema, last).value, init + [last];
    assert forall i :: 0 <= i < |init| ==> indexes[i] == init[i];
    assert indexes[|init|] == last;
    var all := before + if own.Some? then [own.value] else [];
    forall name, q
      ensures (name, q) in all <==> exists i :: 0 <= i < |indexes| && Offers(r, entity, schema, indexes[i], name, q)
    {
      assert (exists i :: 0 <= i < |indexes| && Offers(r, entity, schema, indexes[i], name, q)) <==>
        Offers(r, entity, schema, last, name, q)
        || exists i :: 0 <= i < |init| && Offers(r, entity, schema, init[i], name, q);
    }
    if own.Some? {
      DistinctAdd(f, before, own.value);
      RegisteredOffers(r, f, entity, schema, init, before, own.value.0);
      OffersDistinctAdd(r, f, entity, schema, init, last, own.value.0, own.value.1);
    } else {
      assert all == before;
      assert forall b, q :: !Offers(r, entity, schema, last, b, q);
      if OffersDistinct(r, f, entity, schema, init) {
        forall i, j, a, b, p, q | 0 <= i < j < |indexes| && Offers(r, entity, schema, indexes[i], a, p)
                                  && Offers(r, entity, schema, indexes[j], b, q)
          ensures !EqualFold(f, a, b)
        {
          assert j < |init|;
        }
      }
      OffersDistinctPrefix(r, f, entity, schema, init, last);
    }
  }

  lemma OffersDistinctPrefix(r: Reflection, f: char -> char, entity: TypeId, schema: Schema, init: seq<Index>,
                             last: Index)
    ensures OffersDistinct(r, f, entity, schema, init + [last]) ==> OffersDistinct(r, f, entity, schema, init)
  {
    hide Offers, EqualFold;
    var indexes := init + [last];
    if OffersDistinct(r, f, entity, schema, indexes) {
      forall i, j, a, b, p, q | 0 <= i < j < |init| && Offers(r, entity, schema, init[i], a, p)
                                && Offers(r, entity, schema, init[j], b, q)
        ensures !EqualFold(f, a, b)
      {
        assert Offers(r, entity, schema, indexes[i], a, p) && Offers(r, entity, schema, indexes[j], b, q);
      }
    }
  }

  lemma RegisteredOffers(r: Reflection, f: char -> char, entity: TypeId, schema: Schema, init: seq<Index>,
                         before: seq<(string, QueryField)>, name: string)
    requires forall n, q :: (n, q) in before <==>
      exists i :: 0 <= i < |init| && Offers(r, entity, schema, init[i], n, q)
    ensures Registered(f, before, name) <==>
      exists i, n, q :: 0 <= i < |init| && Offers(r, entity, schema, init[i], n, q) && EqualFold(f, n, name)
  {
    hide Offers, EqualFold;
    if Registered(f, before, name) {
      var k :| 0 <= k < |before| && EqualFold(f, before[k].0, name);
      assert (before[k].0, before[k].1) in before;
      var i :| 0 <= i < |init| && Offers(r, entity, schema, init[i], before[k].0, before[k].1);
    }
    if i, n, q :| 0 <= i < |init| && Offers(r, entity, schema, init[i], n, q) && EqualFold(f, n, name) {
      assert (n, q) in before;
      var k :| 0 <= k < |before| && before[k] == (n, q);
    }
  }

  lemma OffersDistinctAdd(r: Reflection, f: char -> char, entity: TypeId, schema: Schema, init: seq<Index>, last: Index,
                          name: string, field: QueryField)
    requires forall n, q :: Offers(r, entity, schema, last, n, q) <==> n == name && q == field
    ensures OffersDistinct(r, f, entity, schema, init + [last]) <==>
      && OffersDistinct(r, f, entity, schema, init)
      && !exists i, n, q :: 0 <= i < |init| && Offers(r, entity, schema, init[i], n, q) && EqualFold(f, n, name)
  {
    hide Offers, EqualFold;
    var indexes := init + [last];
    assert forall i :: 0 <= i < |init| ==> indexes[i] == init[i];
    OffersDistinctPrefix(r, f, entity, schema, init, last);
    if OffersDistinct(r, f, entity, schema, indexes) {
      forall i, n, q | 0 <= i < |init| && Offers(r, entity, schema, init[i], n, q) ensures !EqualFold(f, n, name) {
        assert Offers(r, entity, schema, indexes[i], n, q) && Offers(r, entity, schema, indexes[|init|], name, field);
      }
    }
    if && OffersDistinct(r, f, entity, schema, init)
       && !exists i, n, q :: 0 <= i < |init| && Offers(r, entity, schema, init[i], n, q) && EqualFold(f, n, name)
    {
      forall i, j, a, b, p, q | 0 <= i < j < |indexes| && Offers(r, entity, schema, indexes[i], a, p)
                                && Offers(r, entity, schema, indexes[j], b, q)
        ensures !EqualFold(f, a, b)
      {
        assert Offers(r, entity, schema, init[i], a, p);
        if j < |init| {
          assert Offers(r, entity, schema, init[j], b, q);
        } else {
          assert b == name;
        }
      }
    }
  }

  /** `newAutomaticQueryFieldResolver`: succeeds exactly when no visible field is in error and no
      two public names are equal under case folding, and then holds exactly what the fields offer. */
  method NewAutomaticQueryFieldResolver(r: Reflection, simpleFold: char -> char, entity: TypeId, schema: Schema)
    returns (resolver: QueryFieldResolver, error: Option<FieldError>)
    requires Unicode(simpleFold)
    ensures fresh(resolver) && resolver.Valid() && resolver.simpleFold == simpleFold
    ensures var all := AutomaticFields(r, entity, schema, if entity in r.visible then r.visible[entity] else []);
            && (error.None? <==> all.Ok? && Distinct(simpleFold, all.value))
            && (error.None? ==> resolver.registered == all.value)
    ensures var visible := if entity in r.visible then r.visible[entity] else [];
            && (error.None? <==>
                  && (forall i :: 0 <= i < |visible| ==> !Faulty(r, entity, schema, visible[i]))
                  && OffersDistinct(r, simpleFold, entity, schema, visible))
            && (error.None? ==> forall name, q :: (name, q) in resolver.registered <==>
                  exists i :: 0 <= i < |visible| && Offers(r, entity, schema, visible[i], name, q))
    ensures AllQualified(schema.table, resolver.registered)
  {
    hide Offers, Faulty, OffersDistinct;
    hide EqualFold, AutomaticField, Registered, Unicode, Indexed, AutomaticFields, Qualified;
    resolver := new QueryFieldResolver(simpleFold);
    var members := if entity in r.visible then r.visible[entity] else [];
    AutomaticFieldsNone(r, entity, schema);
    for i := 0 to |members|
      invariant fresh(resolver) && resolver.Valid() && resolver.simpleFold == simpleFold
      invariant AutomaticFields(r, entity, schema, members[..i]) == Ok(resolver.registered)
      invariant Distinct(simpleFold, resolver.registered) && AllQualified(schema.table, resolver.registered)
    {
      AutomaticFieldsAdd(r, entity, schema, members, i);
      var contribution := AutomaticMember(r, entity, schema, members[i]);
      if contribution.Err? {
        FieldsOffered(r, simpleFold, entity, schema, members);
        return resolver, Some(contribution.error);
      }
      if contribution.value.Some? {
        var (name, field) := contribution.value.value;
        AutomaticQualified(r, entity, schema, members[i]);
        DistinctAdd(simpleFold, resolver.registered, (name, field));
        var path := QueryFieldPath(r, entity, members[i]);
        ghost var before := resolver.registered;
        error := resolver.Add(name, path, field);
        if error.Some? {
          NotDistinctLater(r, simpleFold, entity, schema, members, i, before + [(name, field)]);
          FieldsOffered(r, simpleFold, entity, schema, members);
          return;
        }
      }
    }
    assert members[..|members|] == members;
    FieldsOffered(r, simpleFold, entity, schema, members);
    error := None;
  }

  lemma AutomaticFieldsNone(r: Reflection, entity: TypeId, schema: Schema)
    ensures AutomaticFields(r, entity, schema, []) == Ok([])
  {
  }

  lemma AutomaticFieldsAdd(r: Reflection, entity: TypeId, schema: Schema, members: seq<Index>, i: nat)
    requires i < |members| && AutomaticFields(r, entity, schema, members[..i]).Ok?
    ensures var next := AutomaticField(r, entity, schema, members[i]);
            var before := AutomaticFields(r, entity, schema, members[..i]).value;
            && (next.Err? ==> AutomaticFields(r, entity, schema, members).Err?)
            && (next.Ok? ==> AutomaticFields(r, entity, schema, members[..i + 1]) ==
                             Ok(if next.value.Some? then before + [next.value.value] else before))
  {
    hide AutomaticField;
    assert members[..i + 1][..i] == members[..i];
    var before := AutomaticFields(r, entity, schema, members[..i]).value;
    assert before + [] == before;
    if AutomaticFields(r, entity, schema, members).Ok? {
      AutomaticFieldsPrefix(r, entity, schema, members, i + 1);
    }
  }

  lemma NotDistinctLater(r: Reflection, f: char -> char, entity: TypeId, schema: Schema, members: seq<Index>, i: nat,
                         upToHere: seq<(string, QueryField)>)
    requires i < |members| && AutomaticFields(r, entity, schema, members[..i + 1]) == Ok(upToHere)
      && !Distinct(f, upToHere)
    ensures var all := AutomaticFields(r, entity, schema, members); all.Ok? ==> !Distinct(f, all.value)
  {
    hide AutomaticFields, Distinct;
    var all := AutomaticFields(r, entity, schema, members);
    if all.Ok? {
      AutomaticFieldsPrefix(r, entity, schema, members, i + 1);
      if Distinct(f, all.value) {
        DistinctPrefix(f, upToHere, all.value);
      }
    }
  }

  lemma AutomaticQualified(r: Reflection, entity: TypeId, schema: Schema, index: Index)
    ensures var c := AutomaticField(r, entity, schema, index);
            c.Ok? && c.value.Some? ==>
              r.FieldAt(entity, index).Some? && Qualified(schema.table, c.value.value.1)
                && c.value.value.1.relation == ""
  {
  }

  /** The body of the loop over visible fields, up to adding the field. */
  method AutomaticMember(r: Reflection, entity: TypeId, schema: Schema, index: Index)
    returns (contribution: Result<Option<(string, QueryField)>, FieldError>)
    ensures contribution == AutomaticField(r, entity, schema, index)
  {
    hide AutomaticName, ColumnAtIndex;
    var member := r.FieldAt(entity, index);
    if member.None? || !member.value.exported {
      return Ok(None);
    }
    var column := ColumnAtIndex(schema.columns, index, member.value.typ);
    if column.None? {
      return Ok(None);
    }
    var name := AutomaticQueryFieldName(member.value);
    if name.Err? {
      return Err(name.error);
    }
    if name.value == "-" {
      return Ok(None);
    }
    var field := MappedField(schema.table, column.value, "");
    if field.Err? {
      return Err(field.error);
    }
    return Ok(Some((name.value, field.value)));
  }

  /** The configured names, sorted. */
  method SortedKeys(configured: map<string, string>) returns (keys: seq<string>)
    ensures StrictlySorted(keys) && forall k :: k in keys <==> k in configured
  {
    keys := [];
    var rest := configured.Keys;
    while rest != {}
      invariant rest <= configured.Keys && forall k :: k in keys <==> k in configured && k !in rest
      decreases rest
    {
      var k :| k in rest;
      keys := keys + [k];
      rest := rest - {k};
    }
    UniqueSortedSpec(keys);
    keys := UniqueSorted(keys);
  }

  lemma PathsSelect(r: Reflection, entity: TypeId, schema: Schema)
    ensures forall path, q :: GoPathField(r, entity, schema, path) == Ok(q) <==> PathSelects(r, entity, schema, path, q)
    ensures forall path :: GoPathField(r, entity, schema, path).Ok? <==>
      exists q :: PathSelects(r, entity, schema, path, q)
  {
    hide GoPathField, PathSelects;
    forall path, q ensures GoPathField(r, entity, schema, path) == Ok(q) <==> PathSelects(r, entity, schema, path, q) {
      GoPathResolves(r, entity, schema, path, q);
    }
    forall path ensures GoPathField(r, entity, schema, path).Ok? <==>
      exists q :: PathSelects(r, entity, schema, path, q) {
      if GoPathField(r, entity, schema, path).Ok? {
        assert PathSelects(r, entity, schema, path, GoPathField(r, entity, schema, path).value);
      }
    }
  }

  /** `newQueryFieldResolver` with a configured map: succeeds exactly when every Go path selects a column
      and no two public names are equal under case folding, and then holds exactly these names with what
      their paths select. */
  method NewQueryFieldResolver(r: Reflection, simpleFold: char -> char, entity: TypeId, schema: Schema,
                               configured: map<string, string>)
    returns (resolver: QueryFieldResolver, error: Option<FieldError>)
    requires Unicode(simpleFold)
    ensures fresh(resolver) && resolver.Valid() && resolver.simpleFold == simpleFold
    ensures error.None? <==>
      && (forall public :: public in configured ==> exists q :: PathSelects(r, entity, schema, configured[public], q))
      && (forall a, b :: a in configured && b in configured && a != b ==> !EqualFold(simpleFold, a, b))
    ensures error.None? ==> forall public, field ::
      (public, field) in resolver.registered <==>
      public in configured && PathSelects(r, entity, schema, configured[public], field)
    ensures AllQualified(schema.table, resolver.registered)
  {
    PathsSelect(r, entity, schema);
    hide PathSelects, EqualFold, GoPathField, Unicode, StrictlySorted, Indexed, Qualified, Resolves;
    resolver := new QueryFieldResolver(simpleFold);
    var publics := SortedKeys(configured);
    for i := 0 to |publics|
      invariant fresh(resolver) && resolver.Valid() && resolver.simpleFold == simpleFold
      invariant |resolver.registered| == i
      invariant forall k :: 0 <= k < i ==> Resolves(r, entity, schema, configured, publics[k], resolver.registered[k])
      invariant forall j, k :: 0 <= j < k < i ==> !EqualFold(simpleFold, publics[j], publics[k])
      invariant AllQualified(schema.table, resolver.registered)
    {
      assert publics[i] in publics;
      var path := configured[publics[i]];
      var field := GoPathField(r, entity, schema, path);
      if field.Err? {
        return resolver, Some(field.error);
      }
      GoPathQualified(r, entity, schema, path);
      ghost var before := resolver.registered;
      error := resolver.Add(publics[i], path, field.value);
      if error.Some? {
        ghost var k :| 0 <= k < i && EqualFold(simpleFold, before[k].0, publics[i]);
        DistinctEntries(publics, k, i);
        ResolvesName(r, entity, schema, configured, publics[k], before[k]);
        assert publics[k] in publics;
        return;
      }
      ResolvesNew(r, entity, schema, configured, publics[i], field.value);
      forall j | 0 <= j < i ensures !EqualFold(simpleFold, publics[j], publics[i]) {
        ResolvesName(r, entity, schema, configured, publics[j], before[j]);
        assert !EqualFold(simpleFold, before[j].0, publics[i]);
      }
    }
    error := None;
    RegisteredAsConfigured(r, simpleFold, entity, schema, configured, publics, resolver.registered);
  }

  /** The entry is the public name with what its configured path resolves to. */
  ghost predicate Resolves(r: Reflection, entity: TypeId, schema: Schema, configured: map<string, string>,
                           public: string, entry: (string, QueryField))
  {
    public in configured && entry.0 == public && GoPathField(r, entity, schema, configured[public]) == Ok(entry.1)
  }

  lemma ResolvesName(r: Reflection, entity: TypeId, schema: Schema, configured: map<string, string>, public: string,
                     entry: (string, QueryField))
    requires Resolves(r, entity, schema, configured, public, entry)
    ensures entry.0 == public
  {
  }

  lemma ResolvesNew(r: Reflection, entity: TypeId, schema: Schema, configured: map<string, string>, public: string,
                    field: QueryField)
    requires public in configured && GoPathField(r, entity, schema, configured[public]) == Ok(field)
    ensures Resolves(r, entity, schema, configured, public, (public, field))
  {
  }

  lemma RegisteredAsConfigured(r: Reflection, f: char -> char, entity: TypeId, schema: Schema,
                               configured: map<string, string>, publics: seq<string>,
                               registered: seq<(string, QueryField)>)
    requires Unicode(f) && |registered| == |publics| && forall k :: k in publics <==> k in configured
    requires forall k :: 0 <= k < |publics| ==> Resolves(r, entity, schema, configured, publics[k], registered[k])
    requires forall j, k :: 0 <= j < k < |publics| ==> !EqualFold(f, publics[j], publics[k])
    ensures forall public :: public in configured ==> GoPathField(r, entity, schema, configured[public]).Ok?
    ensures forall a, b :: a in configured && b in configured && a != b ==> !EqualFold(f, a, b)
    ensures forall public, field ::
      (public, field) in registered <==>
        public in configured && GoPathField(r, entity, schema, configured[public]) == Ok(field)
  {
    hide EqualFold, GoPathField, Unicode;
    forall a, b | a in configured && b in configured && a != b ensures !EqualFold(f, a, b) {
      assert a in publics && b in publics;
      var j :| 0 <= j < |publics| && publics[j] == a;
      var k :| 0 <= k < |publics| && publics[k] == b;
      EqualFoldSymmetric(f, a, b);
    }
    forall public | public in configured
      ensures GoPathField(r, entity, schema, configured[public]).Ok?
      ensures (public, GoPathField(r, entity, schema, configured[public]).value) in registered
    {
      assert public in publics;
      var j :| 0 <= j < |publics| && publics[j] == public;
      assert Resolves(r, entity, schema, configured, public, registered[j]);
      assert registered[j] in registered;
    }
  }

  lemma DistinctEntries(s: seq<string>, j: nat, k: nat)
    requires StrictlySorted(s) && j < k < |s|
    ensures s[j] != s[k]
  {
    LessIrreflexive(s[j]);
  }

  lemma EqualFoldSymmetric(f: char -> char, a: string, b: string)
    requires Unicode(f)
    ensures EqualFold(f, a, b) <==> EqualFold(f, b, a)
  {
    FoldDecides(f, a, b);
    FoldDecides(f, b, a);
  }

  // ----- automatic and explicit mappings agree ---------------------------------------------------

  /** Along the index every field is exported and named once in its struct, with an ASCII name. */
  ghost predicate Printable(r: Reflection, t: TypeId, index: Index)
    requires r.FieldAt(t, index).Some?
    decreases |index|
  {
    var f := r.world.Fields(t)[index[0]];
    && r.ExportedUnique(t) && f.exported && IsIdentifier(f.name)
    && (|index| > 1 ==> Printable(r, Indirect(f.typ).id, index[1..]))
  }

  lemma {:induction false} DirectFinds(r: Reflection, t: TypeId, i: nat, from: nat)
    requires r.ExportedUnique(t) && from <= i < |r.world.Fields(t)| && r.world.Fields(t)[i].exported
    ensures r.Direct(t, r.world.Fields(t)[i].name, from) == Some(i)
    decreases i - from
  {
    if from < i {
      DirectFinds(r, t, i, from + 1);
    }
  }

  /** Looking the printed names up again leads to the same index and type. */
  lemma {:induction false} PathLeadsBack(r: Reflection, t: TypeId, index: Index)
    requires r.FieldAt(t, index).Some? && Printable(r, t, index)
    ensures GoFieldIndex(r, Struct(t), FieldPath(r, t, index)) == Some((index, r.FieldAt(t, index).value.typ))
    ensures forall k :: 0 <= k < |index| ==> IsIdentifier(FieldPath(r, t, index)[k])
    decreases |index|
  {
    var f := r.world.Fields(t)[index[0]];
    DirectFinds(r, t, index[0], 0);
    var names := FieldPath(r, t, index);
    if |index| == 1 {
      assert names[1..] == [] && index == [index[0]] + [];
    } else {
      PathLeadsBack(r, Indirect(f.typ).id, index[1..]);
      assert names[1..] == FieldPath(r, Indirect(f.typ).id, index[1..]);
      GoFieldIndexIndirect(r, f.typ, names[1..]);
      assert index == [index[0]] + index[1..];
    }
  }

  lemma GoFieldIndexIndirect(r: Reflection, t: GoType, parts: seq<string>)
    requires parts != [] && Indirect(t).Struct?
    ensures GoFieldIndex(r, t, parts) == GoFieldIndex(r, Struct(Indirect(t).id), parts)
  {
  }

  lemma IdentifierHasNoDot(s: string)
    requires IsIdentifier(s)
    ensures Free(s, '.')
  {
  }

  /** The dotted path printed for an automatically discovered field, given back as an explicit
      mapping, resolves to the same column and needs no relation. */
  lemma AutomaticAgreesWithExplicit(r: Reflection, entity: TypeId, schema: Schema, index: Index)
    requires AutomaticField(r, entity, schema, index).Ok? && AutomaticField(r, entity, schema, index).value.Some?
    requires r.FieldAt(entity, index).Some? && Printable(r, entity, index)
    requires forall name :: name in schema.relationships ==> !(schema.relationships[name].fieldIndex <= index)
    ensures var automatic := AutomaticField(r, entity, schema, index).value.value.1;
            && GoPathField(r, entity, schema, Join(FieldPath(r, entity, index), '.')) == Ok(automatic)
            && automatic.relation == ""
  {
    hide AutomaticName, ColumnAtIndex;
    var names := FieldPath(r, entity, index);
    PathLeadsBack(r, entity, index);
    forall k | 0 <= k < |names| ensures Free(names[k], '.') {
      IdentifierHasNoDot(names[k]);
    }
    SplitJoin(names, '.');
    DirectFinds(r, entity, index[0], 0);
    assert r.FieldByName(entity, names[0]).value.0 == [index[0]];
    assert [index[0]] <= index;
  }

  /** The same through a relation: the relation's field, followed by the path printed for a field of the
      related entity, resolves to the first column stored at that field, qualified by the relation; and
      it is refused if there is no such column. */
  lemma RelationPathResolves(r: Reflection, entity: TypeId, schema: Schema, name: string, index: Index, q: QueryField)
    requires IsIdentifier(name) && StartsAtRelation(r, entity, schema, name)
      && Joinable(r, schema, schema.relationships[name])
    requires var related := schema.relationships[name].relatedType;
             r.FieldAt(related, index).Some? && Printable(r, related, index)
    ensures var relation := schema.relationships[name];
            var columns := r.world.schemas[relation.relatedSchema.value].columns;
            var path := Join([name] + FieldPath(r, relation.relatedType, index), '.');
            GoPathField(r, entity, schema, path) == Ok(q) <==>
            && SqlComparable(r.FieldAt(relation.relatedType, index).value.typ)
            && exists k ::
                 && StoredAt(columns, index, k) && IsIdentifier(columns[k].name)
                 && q == QueryField(relation.name + "." + columns[k].name, relation.name)
  {
    var relation := schema.relationships[name];
    var related, columns := relation.relatedType, r.world.schemas[relation.relatedSchema.value].columns;
    var names := FieldPath(r, related, index);
    var parts := [name] + names;
    PathLeadsBack(r, related, index);
    forall k | 0 <= k < |parts| ensures Free(parts[k], '.') && IsIdentifier(parts[k]) {
      assert k > 0 ==> parts[k] == names[k - 1];
      IdentifierHasNoDot(parts[k]);
    }
    SplitJoin(parts, '.');
    var path := Join(parts, '.');
    assert parts[1..] == names;
    hide Split, Join, FieldPath, Printable, GoFieldIndex, StoredAt, IsIdentifier, SqlComparable, Reflection.FieldByName,
      Reflection.FieldAt;
    GoPathResolves(r, entity, schema, path, q);
    assert IsGoPath(path);
    forall column: string
      ensures LeadsToColumn(r, Struct(related), names, columns, column) <==>
        && SqlComparable(r.FieldAt(related, index).value.typ)
        && exists k :: StoredAt(columns, index, k) && columns[k].name == column
    {
      ColumnIsLedTo(r, Struct(related), names, columns, column);
    }
  }
}
