/**
 The mutating operations of resource.go with default lookup and repository deletion: every
 operation first looks its row up by key under the delete-visibility scope and the request's force
 filters, and only then writes.
 */
module Resource {
  import opened Builders
  import opened GoModel
  import opened Json
  import opened ListPlan
  import opened PatchAssociations
  import opened PatchDocument
  import opened PatchNormalize
  import opened PatchWrite
  import opened Text
  import opened Wrappers
  import PatchInput

  type Key = string

  /** A base row: its primary key and the entity it hydrates to. */
  datatype Row = Row(key: Key, entity: PatchNormalize.Value)

  datatype Call = QueryCall | UpdateCall | DeleteCall

  datatype Write =
    | Updated(row: Row, preloads: seq<string>, omitted: seq<string>, synced: seq<string>)
    | Deleted(key: Key)

  datatype OperationError =
    | InputRequired
    | NotFound
    | Failed(call: Call)
    | BadScope(scope: ScopeError)
    | MapperFailed
    | MergeFailed
    | NormalizeFailed
    | OutputFailed

  /** The base table with the writes it was asked for so far. */
  datatype Table = Table(rows: map<Key, Row>, writes: seq<Write>)

  ghost predicate Keyed(rows: map<Key, Row>) {
    forall k :: k in rows ==> rows[k].key == k
  }

  /** What `Repository.Update` does: it changes the row with the key it is given, if there is one. */
  function Put(table: Table, failing: set<Call>, row: Row, preloads: seq<string>, omitted: seq<string>,
               synced: seq<string>): Table
  {
    if UpdateCall in failing || row.key !in table.rows then table
    else Table(table.rows[row.key := row], table.writes + [Updated(row, preloads, omitted, synced)])
  }

  /** The base table behind SQLR's repository, and the writes it was asked for. Any of its calls
      may fail. */
  class Repository {
    var rows: map<Key, Row>
    var writes: seq<Write>
    var queries: seq<Select<Row>>
    var failing: set<Call>

    ghost predicate Valid()
      reads this
    {
      Keyed(rows)
    }

    ghost function State(): Table
      reads this
    {
      Table(rows, writes)
    }

    constructor (rows: map<Key, Row>, failing: set<Call>)
      requires Keyed(rows)
      ensures Valid() && this.rows == rows && writes == [] && queries == []
    {
      this.rows, this.failing, writes, queries := rows, failing, [], [];
    }

    /** Exactly the rows that satisfy every WHERE condition. */
    method Query(select: Select<Row>) returns (found: Result<seq<Row>, OperationError>)
      requires Valid()
      modifies this`queries
      ensures Valid() && queries == old(queries) + [select]
      ensures found.Err? ==> found.error == Failed(QueryCall)
      ensures found.Err? <==> QueryCall in failing
      ensures found.Ok? ==> forall r :: r in found.value <==>
        r.key in rows && rows[r.key] == r && Holds(select.wheres, r)
    {
      queries := queries + [select];
      if QueryCall in failing {
        return Err(Failed(QueryCall));
      }
      var result: seq<Row> := [];
      var rest := rows.Keys;
      while rest != {}
        invariant rest <= rows.Keys
        invariant forall r :: r in result <==>
          r.key in rows && r.key !in rest && rows[r.key] == r && Holds(select.wheres, r)
        decreases rest
      {
        var k :| k in rest;
        if Holds(select.wheres, rows[k]) {
          result := result + [rows[k]];
        }
        rest := rest - {k};
      }
      return Ok(result);
    }

    method Update(row: Row, qb: QueryBuilderUpdate) returns (updated: Result<Row, OperationError>)
      requires Valid()
      modifies this`rows, this`writes
      ensures Valid()
      ensures updated.Ok? <==> UpdateCall !in failing && row.key in old(rows)
      ensures updated.Ok? ==> updated.value == row && rows == old(rows)[row.key := row]
      ensures updated.Ok? ==> writes == old(writes) + [Updated(row, qb.preloads, qb.omitted, qb.synced)]
      ensures updated.Err? ==> rows == old(rows) && writes == old(writes)
      ensures State() == Put(old(State()), failing, row, qb.preloads, qb.omitted, qb.synced)
    {
      if UpdateCall in failing || row.key !in rows {
        return Err(Failed(UpdateCall));
      }
      rows := rows[row.key := row];
      writes := writes + [Updated(row, qb.preloads, qb.omitted, qb.synced)];
      return Ok(row);
    }

    method Delete(key: Key) returns (error: Option<OperationError>)
      requires Valid()
      modifies this`rows, this`writes
      ensures Valid()
      ensures error.None? <==> DeleteCall !in failing
      ensures error.None? ==> rows == old(rows) - {key} && writes == old(writes) + [Deleted(key)]
      ensures error.Some? ==> rows == old(rows) && writes == old(writes)
    {
      if DeleteCall in failing {
        return Some(Failed(DeleteCall));
      }
      rows := rows - {key};
      writes := writes + [Deleted(key)];
      return None;
    }
  }

  // ----- lookup ----------------------------------------------------------------------------------

  /** Who asks for what: a key, the server's delete-visibility scope, and the force filters. */
  datatype Target = Target(id: Key, visibility: Option<Modifier<Row>>, forceFilters: seq<Modifier<Row>>)

  ghost predicate Restricting(t: Target) {
    && (t.visibility.Some? ==> Restricts(t.visibility.value))
    && forall i :: 0 <= i < |t.forceFilters| ==> Restricts(t.forceFilters[i])
  }

  /** The row has the requested key and satisfies the delete-visibility scope and every force filter. */
  predicate Admitted(t: Target, row: Row) {
    && row.key == t.id
    && (t.visibility.Some? ==> Admits(t.visibility.value, row))
    && forall i :: 0 <= i < |t.forceFilters| ==> Admits(t.forceFilters[i], row)
  }

  function KeyIs(id: Key): Row -> bool {
    (row: Row) => row.key == id
  }

  function LookupSelect(t: Target): Select<Row> {
    var blank: Select<Row> := NewSelect();
    var keyed := blank.(wheres := [KeyIs(t.id)]);
    Forced(t.forceFilters, if t.visibility.Some? then (t.visibility.value)(keyed) else keyed)
  }

  /** The prepared lookup matches exactly the admitted row. */
  lemma LookupMatchesAdmitted(t: Target, row: Row)
    requires Restricting(t)
    ensures Holds(LookupSelect(t).wheres, row) <==> Admitted(t, row)
    ensures Admitted(t, row) ==> row.key == t.id
  {
    var blank: Select<Row> := NewSelect();
    var keyed := blank.(wheres := [KeyIs(t.id)]);
    assert Holds(keyed.wheres, row) <==> row.key == t.id by {
      assert keyed.wheres[0](row) == (row.key == t.id);
    }
    hide Restricts, Holds, Admits, Forced;
    if t.visibility.Some? {
      RestrictsMatches(t.visibility.value, keyed, row);
    }
    ForcedHolds(t.forceFilters, if t.visibility.Some? then (t.visibility.value)(keyed) else keyed, row);
  }

  /** One query was made: with these preloads, perhaps locking what it reads, and not limited to one SQL
      row, because a joined lookup needs all of them to hydrate the entity. */
  ghost predicate LookedUp(before: seq<Select<Row>>, after: seq<Select<Row>>, preloads: seq<string>, forUpdate: bool) {
    && |after| == |before| + 1 && after[..|before|] == before
    && var query := after[|before|];
    && query.preloads == preloads && query.forUpdate == forUpdate
    && query.limit == 0 && query.offset == 0 && query.joins == [] && query.order == []
  }

  lemma LookupSelectIs(t: Target)
    requires Restricting(t)
    ensures LookupSelect(t) == NewSelect<Row>().(wheres := LookupSelect(t).wheres)
  {
    var blank: Select<Row> := NewSelect();
    var keyed := blank.(wheres := [KeyIs(t.id)]);
    ForcedIs(t.forceFilters, if t.visibility.Some? then (t.visibility.value)(keyed) else keyed);
  }

  /** `lookup`: the row with the requested key if it is admitted, and nothing else. */
  method Lookup(repository: Repository, t: Target, preloads: seq<string>, forUpdate: bool)
    returns (found: Result<Row, OperationError>)
    requires repository.Valid() && Restricting(t)
    modifies repository`queries
    ensures repository.Valid()
    ensures found.Ok? <==>
      QueryCall !in repository.failing && t.id in repository.rows && Admitted(t, repository.rows[t.id])
    ensures found.Ok? ==> found.value == repository.rows[t.id]
    ensures found.Err? && QueryCall !in repository.failing ==> found.error == NotFound
    ensures LookedUp(old(repository.queries), repository.queries, preloads, forUpdate)
  {
    hide Holds, Admitted, Restricting, Forced;
    LookupSelectIs(t);
    var prepared := new QueryBuilderSelect<Row>();
    prepared.Where(KeyIs(t.id));
    assert [] + [KeyIs(t.id)] == [KeyIs(t.id)];
    if t.visibility.Some? {
      prepared.state := (t.visibility.value)(prepared.state);
    }
    ApplyForceFilters(t.forceFilters, prepared);
    assert prepared.state == LookupSelect(t);
    ApplyPreloads(preloads, prepared);
    assert [] + preloads == preloads;
    if forUpdate {
      prepared.ForUpdate();
    }
    var entities := repository.Query(prepared.state);
    if entities.Err? {
      return Err(entities.error);
    }
    assert prepared.state.wheres == LookupSelect(t).wheres;
    forall row ensures Holds(LookupSelect(t).wheres, row) <==> Admitted(t, row)
      ensures Admitted(t, row) ==> row.key == t.id
    {
      LookupMatchesAdmitted(t, row);
    }
    if t.id in repository.rows && Admitted(t, repository.rows[t.id]) {
      assert repository.rows[t.id] in entities.value;
      assert |entities.value| > 0;
    }
    if |entities.value| == 0 {
      return Err(NotFound);
    }
    assert entities.value[0] in entities.value;
    return Ok(entities.value[0]);
  }

  /** The row a lookup finds. */
  function Found(rows: map<Key, Row>, failing: set<Call>, t: Target): Option<Row> {
    if QueryCall !in failing && t.id in rows && Admitted(t, rows[t.id]) then Some(rows[t.id]) else None
  }

  // ----- update and delete -------------------------------------------------------------------------

  /** What an update request leaves: the mapped entity of an admitted row is written, or nothing. */
  function AfterUpdate(table: Table, failing: set<Call>, t: Target, preloads: seq<string>, syncPaths: seq<string>,
                       mapper: Row -> Option<Row>): Table
  {
    match Found(table.rows, failing, t)
    case None => table
    case Some(row) =>
      match mapper(row)
      case None => table
      case Some(mapped) => Put(table, failing, mapped, preloads, [], syncPaths)
  }

  /** `buildUpdateOperation`'s operation; a mapper that fails or returns nil gives None. */
  method UpdateEntity<O>(repository: Repository, t: Target, preloads: seq<string>, syncPaths: seq<string>,
                         mapper: Row -> Option<Row>, output: Row -> Option<O>)
    returns (result: Result<O, OperationError>)
    requires repository.Valid() && Restricting(t)
    modifies repository`rows, repository`writes, repository`queries
    ensures repository.Valid()
    ensures repository.State() ==
      AfterUpdate(old(repository.State()), repository.failing, t, preloads, syncPaths, mapper)
    ensures LookedUp(old(repository.queries), repository.queries, preloads, true)
    ensures var rows := old(repository.rows);
            if && QueryCall !in repository.failing && UpdateCall !in repository.failing
               && t.id in rows && Admitted(t, rows[t.id])
               && mapper(rows[t.id]).Some? && mapper(rows[t.id]).value.key in rows
            then
              var mapped := mapper(rows[t.id]).value;
              && repository.rows == rows[mapped.key := mapped]
              && repository.writes == old(repository.writes) + [Updated(mapped, preloads, [], syncPaths)]
            else repository.rows == rows && repository.writes == old(repository.writes)
    ensures result.Ok? <==>
      && |repository.writes| == |old(repository.writes)| + 1
      && repository.writes[|old(repository.writes)|].Updated?
      && output(repository.writes[|old(repository.writes)|].row).Some?
    ensures result.Ok? ==> output(repository.writes[|old(repository.writes)|].row) == Some(result.value)
  {
    hide Admitted, Restricting;
    var found := Lookup(repository, t, preloads, true);
    if found.Err? {
      return Err(found.error);
    }
    var mapped := mapper(found.value);
    if mapped.None? {
      return Err(MapperFailed);
    }
    var qb := new QueryBuilderUpdate();
    for i := 0 to |preloads|
      invariant fresh(qb) && qb.preloads == preloads[..i] && qb.omitted == [] && qb.synced == []
      invariant repository.State() == old(repository.State()) && repository.Valid()
      invariant LookedUp(old(repository.queries), repository.queries, preloads, true)
    {
      qb.Preload(preloads[i]);
    }
    assert preloads[..|preloads|] == preloads;
    qb.SyncAssociation(syncPaths);
    assert [] + syncPaths == syncPaths;
    var updated := repository.Update(mapped.value, qb);
    if updated.Err? {
      return Err(updated.error);
    }
    var out := output(updated.value);
    return if out.Some? then Ok(out.value) else Err(OutputFailed);
  }

  /** What a delete request leaves. */
  function AfterDelete(table: Table, failing: set<Call>, t: Target): Table {
    if Found(table.rows, failing, t).Some? && DeleteCall !in failing
    then Table(table.rows - {t.id}, table.writes + [Deleted(t.id)]) else table
  }

  /** `deleteEntity` with repository deletion. */
  method DeleteEntity(repository: Repository, t: Target, preloads: seq<string>)
    returns (result: Result<Row, OperationError>)
    requires repository.Valid() && Restricting(t)
    modifies repository`rows, repository`writes, repository`queries
    ensures repository.Valid()
    ensures repository.State() == AfterDelete(old(repository.State()), repository.failing, t)
    ensures LookedUp(old(repository.queries), repository.queries, preloads, true)
    ensures result.Ok? <==>
      && QueryCall !in repository.failing && DeleteCall !in repository.failing
      && t.id in old(repository.rows) && Admitted(t, old(repository.rows)[t.id])
    ensures result.Ok? ==>
      && repository.rows == old(repository.rows) - {t.id} && result.value == old(repository.rows)[t.id]
      && repository.writes == old(repository.writes) + [Deleted(t.id)]
    ensures result.Err? ==> repository.rows == old(repository.rows) && repository.writes == old(repository.writes)
  {
    var found := Lookup(repository, t, preloads, true);
    if found.Err? {
      return Err(found.error);
    }
    var error := repository.Delete(found.value.key);
    if error.Some? {
      return Err(error.value);
    }
    return Ok(found.value);
  }

  // ----- patch -------------------------------------------------------------------------------------

  /** What a handler's construction fixed for PATCH: the input type with the application's mappers,
      the entity schema, and the association configuration. */
  datatype PatchConfig = PatchConfig(
    types: PatchInput.Types, input: PatchInput.InputType,
    fromEntity: Row -> Option<PatchInput.Value>, update: (Row, PatchInput.Value) -> Option<Row>,
    world: World, schema: Schema,
    fields: map<string, string>, triggers: map<string, string>,
    preloads: seq<string>, autoPaths: seq<string>)

  /** The input after the merge. */
  function MergedInput(c: PatchConfig, before: PatchInput.Value, document: Members): Option<PatchInput.Value> {
    PatchInput.Decode(c.types, c.input, PatchInput.Merged(c.types, c.input, before, document),
                      PatchInput.Reset(c.types, c.input, before))
  }

  /** Exactly the relations with an association or trigger path in the original document, sorted. */
  ghost predicate Synced(c: PatchConfig, document: PatchDocument, synced: seq<string>) {
    && StrictlySorted(synced)
    && forall r :: r in synced <==> Requested(document, c.fields, r) || Requested(document, c.triggers, r)
  }

  /** The relations a PATCH synchronizes, and the JSON path it finds for each in the association map. */
  datatype Selection = Selection(synced: seq<string>, picked: seq<Option<string>>)

  ghost predicate Selects(c: PatchConfig, document: PatchDocument, s: Selection) {
    Synced(c, document, s.synced) && Picks(c.fields, s.synced, s.picked)
  }

  /** The entity that a PATCH maps the merged input of a row to. */
  function MappedRow(c: PatchConfig, document: PatchDocument, row: Row): Option<Row>
    requires document.Valid()
  {
    var before :- c.fromEntity(row);
    var input :- MergedInput(c, before, document.fields.value);
    c.update(row, input)
  }

  /** The row that a PATCH with a non-empty document asks to be written: the mapped merged input, with the
      document's clears applied. */
  function PatchedRow(c: PatchConfig, document: PatchDocument, row: Row, s: Selection): Option<Row>
    requires document.Valid() && |s.picked| == |s.synced|
  {
    var mapped :- MappedRow(c, document, row);
    match ClearSequence(c.world, mapped.entity, c.schema, ClearsOf(document, s.synced, s.picked))
    case Ok(entity) => Some(Row(mapped.key, entity))
    case Err(_) => None
  }

  /** What a PATCH leaves: nothing is written for an empty document; otherwise the patched row, with the
      relations the document names synchronized and the automatic ones apart from them omitted. */
  function AfterPatch(table: Table, failing: set<Call>, t: Target, document: PatchDocument, c: PatchConfig,
                      s: Selection): Table
    requires |s.picked| == |s.synced|
  {
    match Found(table.rows, failing, t)
    case None => table
    case Some(row) =>
      if !document.Valid() || document.fields.value == map[] then table
      else
        match PatchedRow(c, document, row, s)
        case None => table
        case Some(patched) => Put(table, failing, patched, c.preloads, Unselected(c.autoPaths, s.synced), s.synced)
  }

  /** Lines of `patch` from the complete input to the mapped entity. */
  method MapMergedInput(c: PatchConfig, document: PatchDocument, row: Row)
    returns (mapped: Result<Row, OperationError>, ghost before: PatchInput.Value, ghost input: PatchInput.Value)
    requires document.Valid()
    ensures mapped.Ok? ==>
      && c.fromEntity(row) == Some(before)
      && MergedInput(c, before, document.fields.value) == Some(input)
      && c.update(row, input) == Some(mapped.value)
    ensures MappedRow(c, document, row) == if mapped.Ok? then Some(mapped.value) else None
  {
    before, input := PatchInput.Nil, PatchInput.Nil;
    var made := c.fromEntity(row);
    if made.None? {
      return Err(MapperFailed), before, input;
    }
    var complete := new PatchInput.CompleteInput(c.types, c.input, made.value);
    var merged := complete.MergeInto(document);
    if !merged {
      return Err(MergeFailed), before, input;
    }
    var result := c.update(row, complete.value);
    return if result.Some? then Ok(result.value) else Err(MapperFailed), made.value, complete.value;
  }

  /** Lines of `patch` that select the relations to synchronize. */
  method SelectSynced(c: PatchConfig, document: PatchDocument) returns (paths: seq<string>)
    ensures Synced(c, document, paths)
  {
    hide Requested;
    var selected := SelectPatchAssociationPaths(document, c.fields);
    var triggered := SelectPatchAssociationPaths(document, c.triggers);
    UniqueSortedSpec(selected + triggered);
    paths := UniqueSorted(selected + triggered);
  }

  /** Lines of `patch` from the mapped entity to the write. */
  method WritePatch(repository: Repository, document: PatchDocument, c: PatchConfig, mapped: Row)
    returns (updated: Result<Row, OperationError>, ghost s: Selection)
    requires repository.Valid() && document.Valid()
    modifies repository`rows, repository`writes
    ensures repository.Valid() && Selects(c, document, s)
    ensures var cleared := ClearSequence(c.world, mapped.entity, c.schema, ClearsOf(document, s.synced, s.picked));
            if cleared.Err? then updated.Err? && repository.State() == old(repository.State())
            else
              var row := Row(mapped.key, cleared.value);
              && repository.State() == Put(old(repository.State()), repository.failing, row, c.preloads,
                                           Unselected(c.autoPaths, s.synced), s.synced)
              && (updated.Ok? <==> UpdateCall !in repository.failing && row.key in old(repository.rows))
              && (updated.Ok? ==> updated.value == row)
  {
    hide Unselected, ClearSequence, ClearsOf, Synced, Picks;
    var paths := SelectSynced(c, document);
    var entity := new Entity(mapped.entity);
    var normalized, picked := NormalizePatchAssociationNulls(entity, c.world, c.schema, document, c.fields, paths);
    s := Selection(paths, picked);
    if !normalized {
      return Err(NormalizeFailed), s;
    }
    var qb := new QueryBuilderUpdate();
    BuildPatchWrite(c.preloads, paths, c.autoPaths, qb);
    assert [] + c.preloads == c.preloads && [] + paths == paths
      && [] + Unselected(c.autoPaths, paths) == Unselected(c.autoPaths, paths);
    updated := repository.Update(Row(mapped.key, entity.value), qb);
  }

  lemma {:induction false} RequestedNow(document: PatchDocument, fields: map<string, string>, keys: set<string>)
    returns (relations: seq<string>)
    requires keys <= fields.Keys
    ensures forall r :: r in relations <==> exists key :: key in keys && fields[key] == r && document.Has(key)
    decreases keys
  {
    if keys == {} {
      relations := [];
    } else {
      var key :| key in keys;
      var rest := RequestedNow(document, fields, keys - {key});
      relations := if document.Has(key) then rest + [fields[key]] else rest;
    }
  }

  /** Every document selects something, if perhaps nothing is done with it. */
  lemma SomeSelection(c: PatchConfig, document: PatchDocument) returns (s: Selection)
    ensures Selects(c, document, s)
  {
    var named := RequestedNow(document, c.fields, c.fields.Keys);
    var triggered := RequestedNow(document, c.triggers, c.triggers.Keys);
    UniqueSortedSpec(named + triggered);
    var synced := UniqueSorted(named + triggered);
    s := Selection(synced, AnyPicks(c.fields, synced));
  }

  /** What a PATCH that wrote something went through: the input made from the row, the merged input, the
      row it was mapped to, and the entity with the clears applied. */
  datatype Steps = Steps(before: PatchInput.Value, input: PatchInput.Value, mapped: Row, entity: PatchNormalize.Value)

  /** Field by field the merged input is what the document says: an omitted field sees only its own value,
      and keeps it if JSON represents it; a null makes it zero; anything else is merged into its value. */
  ghost predicate MergedByField(ts: PatchInput.Types, fields: seq<PatchInput.Field>, before: seq<PatchInput.Value>,
                                document: Members, input: PatchInput.Value)
    requires |before| == |fields|
  {
    && input.StructValue? && |input.values| == |fields|
    && forall i :: 0 <= i < |fields| && PatchInput.OwnKey(fields, i) ==>
         var t, zero := ts.TypeOf(fields[i].typ), ts.ZeroOf(fields[i].typ);
         var key, own := PatchInput.JsonKey(fields[i]), PatchInput.Encode(ts, t, before[i]);
         if key !in document then
           && Some(input.values[i]) == PatchInput.Decode(ts, t, own, zero)
           && (PatchInput.ZerosConsistent(ts) && PatchInput.Representable(ts, t, before[i]) ==>
             input.values[i] == before[i])
         else if document[key].Null? then input.values[i] == zero
         else Some(input.values[i]) == PatchInput.Decode(ts, t, MergePatch(own, document[key]), zero)
  }

  /** The steps lead from the row to the entity: the mapper is given the merged input. */
  ghost predicate Led(c: PatchConfig, document: PatchDocument, row: Row, s: Selection, w: Steps)
    requires document.Valid() && |s.picked| == |s.synced|
  {
    && c.fromEntity(row) == Some(w.before)
    && MergedInput(c, w.before, document.fields.value) == Some(w.input)
    && (c.input.Struct? && w.before.StructValue? && |w.before.values| == |c.input.fields| ==>
          MergedByField(c.types, c.input.fields, w.before.values, document.fields.value, w.input))
    && c.update(row, w.input) == Some(w.mapped)
    && ClearSequence(c.world, w.mapped.entity, c.schema, ClearsOf(document, s.synced, s.picked)) == Ok(w.entity)
  }

  lemma MergesByField(c: PatchConfig, before: seq<PatchInput.Value>, document: Members, input: PatchInput.Value)
    requires c.input.Struct? && |before| == |c.input.fields|
    requires MergedInput(c, PatchInput.StructValue(before), document) == Some(input)
    ensures MergedByField(c.types, c.input.fields, before, document, input)
  {
    hide PatchInput.Decode, PatchInput.Encode, PatchInput.Merged, PatchInput.Reset, PatchInput.Representable,
      PatchInput.ZerosConsistent, MergePatch, PatchInput.AddressesField;
    var ts, fields := c.types, c.input.fields;
    MergedIsStruct(ts, fields, before, document, input);
    forall i | 0 <= i < |fields| && PatchInput.OwnKey(fields, i)
      ensures var t, zero := ts.TypeOf(fields[i].typ), ts.ZeroOf(fields[i].typ);
              var key, own := PatchInput.JsonKey(fields[i]), PatchInput.Encode(ts, t, before[i]);
              if key !in document then
                && Some(input.values[i]) == PatchInput.Decode(ts, t, own, zero)
                && (PatchInput.ZerosConsistent(ts) && PatchInput.Representable(ts, t, before[i]) ==>
                      input.values[i] == before[i])
              else if document[key].Null? then input.values[i] == zero
              else Some(input.values[i]) == PatchInput.Decode(ts, t, MergePatch(own, document[key]), zero)
    {
      PatchInput.FieldAfterMerge(ts, fields, before, document, i);
      if && PatchInput.JsonKey(fields[i]) !in document && PatchInput.ZerosConsistent(ts)
         && PatchInput.Representable(ts, ts.TypeOf(fields[i].typ), before[i])
      {
        PatchInput.OmittedFieldUnchanged(ts, fields, before, document, i);
      }
    }
  }

  lemma MergedIsStruct(ts: PatchInput.Types, fields: seq<PatchInput.Field>, before: seq<PatchInput.Value>,
                       document: Members, input: PatchInput.Value)
    requires |before| == |fields|
    requires PatchInput.Decode(ts, PatchInput.Struct(fields),
                               PatchInput.Merged(ts, PatchInput.Struct(fields), PatchInput.StructValue(before),
                                 document),
                               PatchInput.Reset(ts, PatchInput.Struct(fields), PatchInput.StructValue(before))) ==
                                 Some(input)
    ensures input.StructValue? && |input.values| == |fields|
  {
    hide PatchInput.DecodeFields, PatchInput.EncodeFields, PatchInput.ResetFields;
  }

  /** `patch`. `s` is what it selected, or would have selected had it come that far. */
  method Patch<O>(repository: Repository, t: Target, document: PatchDocument, c: PatchConfig, output: Row -> Option<O>)
    returns (result: Result<O, OperationError>, ghost s: Selection, ghost w: Steps)
    requires repository.Valid() && Restricting(t)
    modifies repository`rows, repository`writes, repository`queries
    ensures repository.Valid() && Selects(c, document, s)
    ensures repository.State() == AfterPatch(old(repository.State()), repository.failing, t, document, c, s)
    ensures document.Valid() ==> LookedUp(old(repository.queries), repository.queries, c.preloads, true)
    ensures repository.writes != old(repository.writes) || repository.rows != old(repository.rows) ==>
      && document.Valid() && document.fields.value != map[] && QueryCall !in repository.failing
      && t.id in old(repository.rows) && Admitted(t, old(repository.rows)[t.id])
      && Led(c, document, old(repository.rows)[t.id], s, w)
      && repository.rows == old(repository.rows)[w.mapped.key := Row(w.mapped.key, w.entity)]
      && repository.writes == old(repository.writes) +
           [Updated(Row(w.mapped.key, w.entity), c.preloads, Unselected(c.autoPaths, s.synced), s.synced)]
    ensures result.Ok? <==>
      && document.Valid() && Found(old(repository.rows), repository.failing, t).Some?
      && if document.fields == Some(map[]) then output(old(repository.rows)[t.id]).Some?
         else
           && |repository.writes| == |old(repository.writes)| + 1
           && repository.writes[|old(repository.writes)|].Updated?
           && output(repository.writes[|old(repository.writes)|].row).Some?
    ensures result.Ok? ==>
      Some(result.value) == output(if document.fields == Some(map[]) then old(repository.rows)[t.id]
                                   else repository.writes[|old(repository.writes)|].row)
  {
    hide Unselected, ClearSequence, ClearsOf, Synced, MappedRow, MergedInput, MergedByField, Admitted, Restricting;
    s := SomeSelection(c, document);
    w := Steps(PatchInput.Nil, PatchInput.Nil, Row("", Nil), Nil);
    if !document.Valid() {
      return Err(InputRequired), s, w;
    }
    var found := Lookup(repository, t, c.preloads, true);
    if found.Err? {
      return Err(found.error), s, w;
    }
    if document.fields.value == map[] {
      var asIs := output(found.value);
      return if asIs.Some? then Ok(asIs.value) else Err(OutputFailed), s, w;
    }
    var mapped, before, input := MapMergedInput(c, document, found.value);
    if mapped.Err? {
      return Err(mapped.error), s, w;
    }
    var updated, now := WritePatch(repository, document, c, mapped.value);
    s := now;
    ghost var cleared := ClearSequence(c.world, mapped.value.entity, c.schema, ClearsOf(document, s.synced, s.picked));
    if cleared.Ok? {
      w := Steps(before, input, mapped.value, cleared.value);
      if c.input.Struct? && before.StructValue? && |before.values| == |c.input.fields| {
        MergesByField(c, before.values, document.fields.value, input);
      }
    }
    if updated.Err? {
      return Err(updated.error), s, w;
    }
    var out := output(updated.value);
    return if out.Some? then Ok(out.value) else Err(OutputFailed), s, w;
  }

  /** Every synchronized relation is configured with sync:update. */
  lemma SyncedIsConfigured(c: PatchConfig, types: InputTypes, root: PathType, syncPaths: seq<string>,
                           overrides: map<string, string>, document: PatchDocument, synced: seq<string>,
                           relation: string)
    requires Usable(types, root, syncPaths, overrides) && Represents(types, root, syncPaths, overrides, c.fields)
    requires forall key :: key in c.triggers ==> c.triggers[key] in syncPaths
    requires Synced(c, document, synced) && relation in synced
    ensures relation in syncPaths
  {
    hide Usable, Represents;
    FieldsCoverSyncPaths(types, root, syncPaths, overrides, c.fields);
    if Requested(document, c.fields, relation) {
      var key :| key in c.fields && c.fields[key] == relation && document.Has(key);
    } else {
      var key :| key in c.triggers && c.triggers[key] == relation && document.Has(key);
    }
  }

  /** An automatic association that a PATCH leaves un-omitted is equal to one the document names, or
      above or below it; no omitted one is. */
  lemma UnomittedIsNamed(c: PatchConfig, document: PatchDocument, synced: seq<string>, path: string)
    requires Synced(c, document, synced) && path in c.autoPaths
    ensures path in Unselected(c.autoPaths, synced) <==>
      forall r :: Requested(document, c.fields, r) || Requested(document, c.triggers, r) ==> !Comparable(path, r)
  {
    hide Comparable, Unselected;
    OmittedExactly(c.autoPaths, synced, path);
  }

  // ----- runs --------------------------------------------------------------------------------------

  datatype Request =
    | UpdateRequest(target: Target, preloads: seq<string>, syncPaths: seq<string>, mapper: Row -> Option<Row>)
    | DeleteRequest(target: Target, preloads: seq<string>)
    | PatchRequest(target: Target, document: PatchDocument, config: PatchConfig)

  /** What a request may leave of a table, when these calls fail. */
  ghost predicate Leaves(r: Request, failing: set<Call>, before: Table, after: Table) {
    match r
    case UpdateRequest(t, preloads, syncPaths, mapper) => after ==
      AfterUpdate(before, failing, t, preloads, syncPaths, mapper)
    case DeleteRequest(t, _) => after == AfterDelete(before, failing, t)
    case PatchRequest(t, document, c) =>
      exists s :: Selects(c, document, s) && after == AfterPatch(before, failing, t, document, c, s)
  }

  /** One request, through the operation it is for. */
  method Serve<O>(repository: Repository, r: Request, output: Row -> Option<O>) returns (ok: bool)
    requires repository.Valid() && Restricting(r.target)
    modifies repository`rows, repository`writes, repository`queries
    ensures repository.Valid() && Leaves(r, repository.failing, old(repository.State()), repository.State())
  {
    hide AfterUpdate, AfterDelete, AfterPatch, Restricting;
    match r {
      case UpdateRequest(t, preloads, syncPaths, mapper) =>
        var result := UpdateEntity(repository, t, preloads, syncPaths, mapper, output);
        return result.Ok?;
      case DeleteRequest(t, preloads) =>
        var result := DeleteEntity(repository, t, preloads);
        return result.Ok?;
      case PatchRequest(t, document, c) =>
        var result, s, w := Patch(repository, t, document, c, output);
        return result.Ok?;
    }
  }

  /** What an update request stores: the mapped entity itself, once, if the lookup admits the row and no
      call fails; otherwise nothing. */
  lemma UpdateStores(r: Request, failing: set<Call>, before: Table, after: Table)
    requires r.UpdateRequest? && Leaves(r, failing, before, after)
    ensures var rows, t := before.rows, r.target;
            if && QueryCall !in failing && UpdateCall !in failing && t.id in rows && Admitted(t, rows[t.id])
               && r.mapper(rows[t.id]).Some? && r.mapper(rows[t.id]).value.key in rows
            then
              var mapped := r.mapper(rows[t.id]).value;
              && after.rows == rows[mapped.key := mapped]
              && after.writes == before.writes + [Updated(mapped, r.preloads, [], r.syncPaths)]
            else after == before
  {
    hide Admitted;
  }

  /** What a delete request removes: the requested row, if the lookup admits it and no call fails. */
  lemma DeleteRemoves(r: Request, failing: set<Call>, before: Table, after: Table)
    requires r.DeleteRequest? && Leaves(r, failing, before, after)
    ensures var rows, t := before.rows, r.target;
            if QueryCall !in failing && DeleteCall !in failing && t.id in rows && Admitted(t, rows[t.id])
            then after.rows == rows - {t.id} && after.writes == before.writes + [Deleted(t.id)]
            else after == before
  {
    hide Admitted;
  }

  /** What a PATCH that changes the table stores: the row the mapper makes of the merged input, with the
      clears applied. */
  lemma PatchStores(r: Request, failing: set<Call>, before: Table, after: Table) returns (s: Selection, w: Steps)
    requires r.PatchRequest? && Leaves(r, failing, before, after) && after != before
    ensures Selects(r.config, r.document, s) && r.document.Valid() && r.document.fields.value != map[]
    ensures r.target.id in before.rows && Admitted(r.target, before.rows[r.target.id])
    ensures Led(r.config, r.document, before.rows[r.target.id], s, w)
    ensures var row := Row(w.mapped.key, w.entity);
            && after.rows == before.rows[row.key := row]
            && after.writes == before.writes +
                 [Updated(row, r.config.preloads, Unselected(r.config.autoPaths, s.synced), s.synced)]
  {
    hide Admitted, Unselected, ClearSequence, ClearsOf, Synced, MergedInput, MergedByField;
    var c, document := r.config, r.document;
    s :| Selects(c, document, s) && after == AfterPatch(before, failing, r.target, document, c, s);
    var row := before.rows[r.target.id];
    var made := c.fromEntity(row).value;
    var input := MergedInput(c, made, document.fields.value).value;
    var mapped := c.update(row, input).value;
    w := Steps(made, input, mapped, ClearSequence(c.world, mapped.entity, c.schema,
                                                  ClearsOf(document, s.synced, s.picked)).value);
    if c.input.Struct? && made.StructValue? && |made.values| == |c.input.fields| {
      MergesByField(c, made.values, document.fields.value, input);
    }
  }

  ghost predicate Changed(before: map<Key, Row>, after: map<Key, Row>, key: Key) {
    !(key in before <==> key in after) || (key in before && key in after && before[key] != after[key])
  }

  /** Only the row with the requested key may change, and only if it was admitted. */
  ghost predicate Framed(t: Target, before: map<Key, Row>, after: map<Key, Row>) {
    forall key :: Changed(before, after, key) ==> key == t.id && key in before && Admitted(t, before[key])
  }

  /** The application's mapper keeps the primary key. */
  ghost predicate KeepsKey(r: Request) {
    match r
    case UpdateRequest(_, _, _, mapper) => forall row :: mapper(row).Some? ==> mapper(row).value.key == row.key
    case DeleteRequest(_, _) => true
    case PatchRequest(_, _, c) => forall row, input :: c.update(row, input).Some? ==>
      c.update(row, input).value.key == row.key
  }

  /** Writing a row for an admitted one stays in the frame exactly if the key is the requested one, or if
      nothing changes. */
  lemma PutFrames(t: Target, table: Table, failing: set<Call>, row: Row, preloads: seq<string>, omitted: seq<string>,
                  synced: seq<string>)
    requires t.id in table.rows && Admitted(t, table.rows[t.id])
    ensures Framed(t, table.rows, Put(table, failing, row, preloads, omitted, synced).rows) <==>
      UpdateCall in failing || row.key !in table.rows || row.key == t.id || table.rows[row.key] == row
  {
  }

  /** An update stays in the frame exactly if the mapper keeps the key, or if nothing changes in the row
      under the other key. */
  lemma UpdateNeedsKey(table: Table, failing: set<Call>, t: Target, preloads: seq<string>, syncPaths: seq<string>,
                       mapper: Row -> Option<Row>)
    requires Keyed(table.rows)
    ensures Framed(t, table.rows, AfterUpdate(table, failing, t, preloads, syncPaths, mapper).rows) <==>
      (Found(table.rows, failing, t).Some? && mapper(table.rows[t.id]).Some? && UpdateCall !in failing ==>
       var mapped := mapper(table.rows[t.id]).value;
       mapped.key !in table.rows || mapped.key == t.id || table.rows[mapped.key] == mapped)
  {
  }

  lemma NoChangeIsFramed(t: Target, rows: map<Key, Row>)
    ensures Framed(t, rows, rows)
  {
  }

  /** With a mapper that keeps the key, a request changes at most the row it asks for, and that only if
      the row satisfied the request's scope when it was looked up. */
  lemma RequestIsFramed(r: Request, failing: set<Call>, before: Table, after: Table)
    requires Keyed(before.rows) && Leaves(r, failing, before, after) && KeepsKey(r)
    ensures Framed(r.target, before.rows, after.rows) && Keyed(after.rows)
  {
    hide Admitted, Unselected, MergedInput, ClearSequence, ClearsOf, Synced, Framed, Put;
    NoChangeIsFramed(r.target, before.rows);
    match r {
      case UpdateRequest(t, preloads, syncPaths, mapper) =>
        UpdateNeedsKey(before, failing, t, preloads, syncPaths, mapper);
        if Found(before.rows, failing, t).Some? && mapper(before.rows[t.id]).Some? {
          PutKeyed(before, failing, mapper(before.rows[t.id]).value, preloads, [], syncPaths);
        }
      case DeleteRequest(t, _) => DeleteFrames(t, before, failing);
      case PatchRequest(t, document, c) =>
        var s :| Selects(c, document, s) && after == AfterPatch(before, failing, t, document, c, s);
        PatchFrames(before, failing, t, document, c, s);
    }
  }

  lemma PutKeyed(table: Table, failing: set<Call>, row: Row, preloads: seq<string>, omitted: seq<string>,
                 synced: seq<string>)
    requires Keyed(table.rows)
    ensures Keyed(Put(table, failing, row, preloads, omitted, synced).rows)
  {
  }

  lemma DeleteFrames(t: Target, table: Table, failing: set<Call>)
    requires Keyed(table.rows)
    ensures Framed(t, table.rows, AfterDelete(table, failing, t).rows) && Keyed(AfterDelete(table, failing, t).rows)
  {
  }

  lemma PatchFrames(table: Table, failing: set<Call>, t: Target, document: PatchDocument, c: PatchConfig, s: Selection)
    requires Keyed(table.rows) && |s.picked| == |s.synced| && KeepsKey(PatchRequest(t, document, c))
    ensures var after := AfterPatch(table, failing, t, document, c, s).rows;
            Framed(t, table.rows, after) && Keyed(after)
  {
    hide Admitted, Unselected, MergedInput, ClearSequence, ClearsOf, Framed, Put, Keyed;
    NoChangeIsFramed(t, table.rows);
    var found := Found(table.rows, failing, t);
    if found.Some? && document.Valid() && document.fields.value != map[] {
      var patched := PatchedRow(c, document, found.value, s);
      if patched.Some? {
        assert patched.value.key == found.value.key;
        assert found.value.key == t.id by { FoundHasKey(table.rows, failing, t); }
        PutFrames(t, table, failing, patched.value, c.preloads, Unselected(c.autoPaths, s.synced), s.synced);
        PutKeyed(table, failing, patched.value, c.preloads, Unselected(c.autoPaths, s.synced), s.synced);
      }
    }
  }

  lemma FoundHasKey(rows: map<Key, Row>, failing: set<Call>, t: Target)
    requires Found(rows, failing, t).Some?
    ensures Found(rows, failing, t).value.key == t.id && t.id in rows && Admitted(t, rows[t.id])
  {
  }

  /** The table before each request of a run and after the last one; which calls fail may differ from
      request to request. */
  ghost predicate IsRun(tables: seq<Table>, requests: seq<Request>, failing: seq<set<Call>>) {
    && |tables| == |requests| + 1 && |failing| == |requests| && Keyed(tables[0].rows)
    && forall i :: 0 <= i < |requests| ==> Leaves(requests[i], failing[i], tables[i], tables[i + 1])
  }

  lemma {:induction false} RunIsFramed(tables: seq<Table>, requests: seq<Request>, failing: seq<set<Call>>, i: nat)
    requires IsRun(tables, requests, failing) && i < |requests| && forall r :: r in requests ==> KeepsKey(r)
    ensures Keyed(tables[i].rows) && Keyed(tables[i + 1].rows)
    ensures Framed(requests[i].target, tables[i].rows, tables[i + 1].rows)
  {
    hide Leaves, KeepsKey, Framed, Keyed;
    if i > 0 {
      RunIsFramed(tables, requests, failing, i - 1);
    }
    assert requests[i] in requests;
    RequestIsFramed(requests[i], failing[i], tables[i], tables[i + 1]);
  }

  /** Over any run of update, patch and delete requests with mappers that keep the key, a base row that
      is not what it was at the start was changed by a request for its key, whose delete-visibility scope
      and force filters it satisfied when it was looked up. */
  lemma ChangesAreAdmitted(tables: seq<Table>, requests: seq<Request>, failing: seq<set<Call>>, key: Key)
    returns (i: nat)
    requires IsRun(tables, requests, failing) && forall r :: r in requests ==> KeepsKey(r)
    requires Changed(tables[0].rows, tables[|requests|].rows, key)
    ensures i < |requests| && Changed(tables[i].rows, tables[i + 1].rows, key)
    ensures requests[i].target.id == key && key in tables[i].rows && Admitted(requests[i].target, tables[i].rows[key])
  {
    hide Admitted, KeepsKey, Leaves;
    i := ChangeHappens(tables, key, |requests|);
    RunIsFramed(tables, requests, failing, i);
  }

  lemma {:induction false} ChangeHappens(tables: seq<Table>, key: Key, n: nat) returns (i: nat)
    requires n < |tables| && Changed(tables[0].rows, tables[n].rows, key)
    ensures i < n && Changed(tables[i].rows, tables[i + 1].rows, key)
    decreases n
  {
    if Changed(tables[n - 1].rows, tables[n].rows, key) {
      i := n - 1;
    } else {
      i := ChangeHappens(tables, key, n - 1);
    }
  }

  /** Rows that no request of the run asked for, or that were never admitted, are as at the start. */
  lemma OthersUntouched(tables: seq<Table>, requests: seq<Request>, failing: seq<set<Call>>, key: Key)
    requires IsRun(tables, requests, failing) && forall r :: r in requests ==> KeepsKey(r)
    requires forall i :: 0 <= i < |requests| && requests[i].target.id == key && key in tables[i].rows ==>
      !Admitted(requests[i].target, tables[i].rows[key])
    ensures !Changed(tables[0].rows, tables[|requests|].rows, key)
  {
    hide Admitted, KeepsKey, Leaves;
    if Changed(tables[0].rows, tables[|requests|].rows, key) {
      var i := ChangesAreAdmitted(tables, requests, failing, key);
    }
  }

  /** A mapper that changes the key writes to a row the request never looked up. */
  lemma OtherRowOverwritten(a: Row, b: Row)
    requires a.key != b.key && b.entity != a.entity
    ensures var t := Target(a.key, None, []);
            var rows := map[a.key := a, b.key := b];
            var r := UpdateRequest(t, [], [], (row: Row) => Some(Row(b.key, row.entity)));
            var after := AfterUpdate(Table(rows, []), {}, t, [], [], r.mapper);
            && !KeepsKey(r) && after.rows[b.key] == Row(b.key, a.entity) && !Framed(t, rows, after.rows)
  {
    var t := Target(a.key, None, []);
    var rows := map[a.key := a, b.key := b];
    var mapper := (row: Row) => Some(Row(b.key, row.entity));
    assert mapper(a).Some? && mapper(a).value.key != a.key;
    assert Keyed(rows);
    assert Found(rows, {}, t) == Some(a);
    UpdateNeedsKey(Table(rows, []), {}, t, [], [], mapper);
  }
}
