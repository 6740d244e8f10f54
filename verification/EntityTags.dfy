/**
 entity_tags.go: the depth-first walk that collects the relation paths tagged for each phase. It
 follows relationships and embedded structs through a type graph that may be cyclic, and skips a
 type that is already on the way from the root to the current field.
 */
module EntityTags {
  import opened GoModel
  import opened Text
  import opened Wrappers
  import TagSyntax

  /** One of the seven path lists. */
  datatype Slot = CreatePreload | ReadPreload | QueryPreload | UpdatePreload | CreateSync | DeleteSync | UpdateSync

  datatype Emission = Emission(slot: Slot, path: string)

  datatype Failure =
    | EmbeddedTag(path: string)
    | Syntax(path: string, error: TagSyntax.TagError)
    | FieldNeedsColumn(path: string)
    | NotAssociation(path: string)
    | UnknownDirective(path: string, name: string)
    | UnsupportedPhase(path: string, name: string, phase: string)
    | UnresolvedSchema(path: string)

  function SlotOf(name: string, phase: string): Option<Slot> {
    match (name, phase)
    case ("preload", "create") => Some(CreatePreload)
    case ("preload", "read") => Some(ReadPreload)
    case ("preload", "query") => Some(QueryPreload)
    case ("preload", "update") => Some(UpdatePreload)
    case ("sync", "create") => Some(CreateSync)
    case ("sync", "delete") => Some(DeleteSync)
    case ("sync", "update") => Some(UpdateSync)
    case _ => None
  }

  function PhaseFailure(path: string, name: string, phase: string): Failure {
    if name == "preload" || name == "sync" then UnsupportedPhase(path, name, phase) else UnknownDirective(path, name)
  }

  // ----- specification of the walk -----------------------------------------------------------

  /** Where the walk stands: a struct type, the schema its fields belong to, the relation path to
      it, and the index of the embedded field it was reached through (empty if not embedded). */
  datatype Place = Place(typ: TypeId, schema: Schema, path: seq<string>, index: Index)

  /** What was appended, and the error the walk stopped at, if any. */
  datatype Walked = Walked(emissions: seq<Emission>, failure: Option<Failure>)

  function Then(first: seq<Emission>, rest: Walked): Walked {
    Walked(first + rest.emissions, rest.failure)
  }

  lemma ThenTwice(a: seq<Emission>, b: seq<Emission>, rest: Walked)
    ensures Then(a, Then(b, rest)) == Then(a + b, rest)
    ensures Then([], rest) == rest
    ensures Then(a, Walked([], None)) == Walked(a, None)
  {
  }

  function RelationPath(p: Place, f: StructField): string {
    Join(p.path + [f.name], '.')
  }

  predicate IsRelation(p: Place, f: StructField, i: nat) {
    f.name in p.schema.relationships && p.schema.relationships[f.name].fieldIndex == p.index + [i]
  }

  function PhaseEmissions(path: string, name: string, phases: seq<string>): Walked {
    if phases == [] then Walked([], None)
    else
      match SlotOf(name, phases[0])
      case None => Walked([], Some(PhaseFailure(path, name, phases[0])))
      case Some(slot) => Then([Emission(slot, path)], PhaseEmissions(path, name, phases[1..]))
  }

  lemma OnePhase(path: string, name: string, phase: string)
    ensures var slot := SlotOf(name, phase);
            PhaseEmissions(path, name, [phase]) ==
            if slot.None? then Walked([], Some(PhaseFailure(path, name, phase)))
              else Walked([Emission(slot.value, path)], None)
  {
    hide SlotOf, PhaseFailure;
  }

  function DirectiveEmissions(p: Place, f: StructField, i: nat, d: TagSyntax.Directive): Walked {
    var path := RelationPath(p, f);
    if d.name == TagSyntax.FIELD then
      if f.exported && ColumnAtIndex(p.schema.columns, p.index + [i], f.typ).Some? then Walked([], None)
      else Walked([], Some(FieldNeedsColumn(path)))
    else if !IsRelation(p, f, i) then Walked([], Some(NotAssociation(path)))
    else PhaseEmissions(path, d.name, d.phases)
  }

  function AllEmissions(p: Place, f: StructField, i: nat, ds: seq<TagSyntax.Directive>): Walked {
    if ds == [] then Walked([], None)
    else
      var first := DirectiveEmissions(p, f, i, ds[0]);
      if first.failure.Some? then first else Then(first.emissions, AllEmissions(p, f, i, ds[1..]))
  }

  /** Field `i` on its own: what it appends, and whether it is in error. */
  function FieldEmissions(p: Place, f: StructField, i: nat): Walked {
    var tag := TrimSpace(f.tag);
    if f.anonymous then
      Walked([], if tag != "" then Some(EmbeddedTag(RelationPath(p, f))) else None)
    else
      match TagSyntax.Parse(tag)
      case Err(e) => Walked([], Some(Syntax(RelationPath(p, f), e)))
      case Ok(ds) =>
        var own := AllEmissions(p, f, i, ds);
        if own.failure.None? && IsRelation(p, f, i) && p.schema.relationships[f.name].relatedSchema.None?
        then own.(failure := Some(UnresolvedSchema(RelationPath(p, f))))
        else own
  }

  /** The place a field leads to: an embedded struct or a related entity. */
  function Next(w: World, p: Place, f: StructField, i: nat): Option<Place> {
    if f.anonymous then
      match Indirect(f.typ)
      case Struct(id) => Some(Place(id, p.schema, p.path, p.index + [i]))
      case _ => None
    else if IsRelation(p, f, i) then
      var r := p.schema.relationships[f.name];
      if r.relatedSchema.Some? && r.relatedSchema.value in w.schemas
      then Some(Place(r.relatedType, w.schemas[r.relatedSchema.value], p.path + [f.name], []))
      else None
    else None
  }

  ghost predicate Placed(w: World, p: Place) {
    w.Closed() && p.typ in w.types && w.SchemaClosed(p.schema)
  }

  lemma NextPlaced(w: World, p: Place, i: nat)
    requires Placed(w, p) && i < |w.Fields(p.typ)|
    ensures var next := Next(w, p, w.Fields(p.typ)[i], i); next.Some? ==> Placed(w, next.value)
  {
  }

  /** Field `i` and everything below it, given the types on the way to the place. */
  ghost function FieldWalk(w: World, p: Place, visited: set<TypeId>, i: nat): Walked
    requires Placed(w, p) && i < |w.Fields(p.typ)|
    decreases w.types.Keys - visited, |w.Fields(p.typ)| - i, 0
  {
    var f := w.Fields(p.typ)[i];
    var own := FieldEmissions(p, f, i);
    var next := Next(w, p, f, i);
    NextPlaced(w, p, i);
    if own.failure.Some? || next.None? || next.value.typ in visited then own
    else Then(own.emissions, Walk(w, next.value, visited + {next.value.typ}, 0))
  }

  /** Fields `i`, `i + 1`, ... of a place, up to the first error. */
  ghost function Walk(w: World, p: Place, visited: set<TypeId>, i: nat): Walked
    requires Placed(w, p) && i <= |w.Fields(p.typ)|
    decreases w.types.Keys - visited, |w.Fields(p.typ)| - i, 1
  {
    if i == |w.Fields(p.typ)| then Walked([], None)
    else
      var field := FieldWalk(w, p, visited, i);
      if field.failure.Some? then field else Then(field.emissions, Walk(w, p, visited, i + 1))
  }

  // ----- the walk ----------------------------------------------------------------------------

  function Select(emissions: seq<Emission>, slot: Slot): seq<string> {
    if emissions == [] then []
    else (if emissions[0].slot == slot then [emissions[0].path] else []) + Select(emissions[1..], slot)
  }

  lemma {:induction false} SelectAppend(a: seq<Emission>, b: seq<Emission>, slot: Slot)
    ensures Select(a + b, slot) == Select(a, slot) + Select(b, slot)
  {
    if a == [] {
      assert a + b == b;
    } else {
      assert (a + b)[1..] == a[1..] + b;
      SelectAppend(a[1..], b, slot);
    }
  }

  lemma {:induction false} SelectIn(emissions: seq<Emission>, slot: Slot, path: string)
    ensures path in Select(emissions, slot) <==> Emission(slot, path) in emissions
  {
    if emissions != [] {
      SelectIn(emissions[1..], slot, path);
      assert emissions == [emissions[0]] + emissions[1..];
    }
  }

  lemma SelectSnoc(emissions: seq<Emission>, e: Emission)
    ensures forall slot ::
      Select(emissions + [e], slot) == Select(emissions, slot) + (if e.slot == slot then [e.path] else [])
  {
    forall slot
      ensures Select(emissions + [e], slot) == Select(emissions, slot) + (if e.slot == slot then [e.path] else [])
    {
      SelectAppend(emissions, [e], slot);
    }
  }

  class EntityBuilderTags {
    var createPreloadPaths: seq<string>
    var createSyncPaths: seq<string>
    var deleteSyncPaths: seq<string>
    var readPreloadPaths: seq<string>
    var queryPreloadPaths: seq<string>
    var updatePreloadPaths: seq<string>
    var updateSyncPaths: seq<string>

    /** Everything appended so far, to whichever list, in order. */
    ghost var log: seq<Emission>

    /** Each list holds exactly the logged paths of its slot. */
    ghost predicate Valid()
      reads this
    {
      forall slot :: Paths(slot) == Select(log, slot)
    }

    constructor ()
      ensures Valid() && log == []
    {
      createPreloadPaths, createSyncPaths, deleteSyncPaths, readPreloadPaths := [], [], [], [];
      queryPreloadPaths, updatePreloadPaths, updateSyncPaths := [], [], [];
      log := [];
    }

    function Paths(slot: Slot): seq<string>
      reads this
    {
      match slot
      case CreatePreload => createPreloadPaths
      case ReadPreload => readPreloadPaths
      case QueryPreload => queryPreloadPaths
      case UpdatePreload => updatePreloadPaths
      case CreateSync => createSyncPaths
      case DeleteSync => deleteSyncPaths
      case UpdateSync => updateSyncPaths
    }

    method ApplySqlhTagPhase(name: string, phase: string, path: string) returns (failure: Option<Failure>)
      requires Valid()
      modifies this
      ensures Valid()
      ensures failure == PhaseEmissions(path, name, [phase]).failure
      ensures log == old(log) + PhaseEmissions(path, name, [phase]).emissions
    {
      hide PhaseEmissions, Select;
      OnePhase(path, name, phase);
      match (name, phase) {
        case ("preload", "create") => createPreloadPaths := createPreloadPaths + [path];
        case ("preload", "read") => readPreloadPaths := readPreloadPaths + [path];
        case ("preload", "query") => queryPreloadPaths := queryPreloadPaths + [path];
        case ("preload", "update") => updatePreloadPaths := updatePreloadPaths + [path];
        case ("sync", "create") => createSyncPaths := createSyncPaths + [path];
        case ("sync", "delete") => deleteSyncPaths := deleteSyncPaths + [path];
        case ("sync", "update") => updateSyncPaths := updateSyncPaths + [path];
        case _ => return Some(PhaseFailure(path, name, phase));
      }
      ghost var e := Emission(SlotOf(name, phase).value, path);
      SelectSnoc(log, e);
      log := log + [e];
      return None;
    }

    /** One directive of a field that is not embedded. */
    method ApplyDirective(p: Place, f: StructField, i: nat, d: TagSyntax.Directive) returns (failure: Option<Failure>)
      requires Valid()
      modifies this
      ensures failure == DirectiveEmissions(p, f, i, d).failure
      ensures Valid() && log == old(log) + DirectiveEmissions(p, f, i, d).emissions
    {
      var path := RelationPath(p, f);
      if d.name == TagSyntax.FIELD {
        if !f.exported || ColumnAtIndex(p.schema.columns, p.index + [i], f.typ).None? {
          return Some(FieldNeedsColumn(path));
        }
        return None;
      }
      if !IsRelation(p, f, i) {
        return Some(NotAssociation(path));
      }
      ghost var done: seq<Emission> := [];
      for k := 0 to |d.phases|
        invariant PhaseEmissions(path, d.name, d.phases) == Then(done, PhaseEmissions(path, d.name, d.phases[k..]))
        invariant Valid() && log == old(log) + done
      {
        ghost var one := PhaseEmissions(path, d.name, [d.phases[k]]);
        assert d.phases[k..][0] == d.phases[k] && d.phases[k..][1..] == d.phases[k + 1..];
        var phaseFailure := ApplySqlhTagPhase(d.name, d.phases[k], path);
        if phaseFailure.Some? {
          return phaseFailure;
        }
        done := done + one.emissions;
      }
      assert done + [] == done;
      return None;
    }

    /** All directives of a field that is not embedded, up to the first error. */
    method ApplyDirectives(p: Place, f: StructField, i: nat, ds: seq<TagSyntax.Directive>)
      returns (failure: Option<Failure>)
      requires Valid()
      modifies this
      ensures failure == AllEmissions(p, f, i, ds).failure
      ensures Valid() && log == old(log) + AllEmissions(p, f, i, ds).emissions
    {
      ghost var done: seq<Emission> := [];
      hide DirectiveEmissions;
      assert ds[0..] == ds;
      ThenTwice([], [], AllEmissions(p, f, i, ds));
      for k := 0 to |ds|
        invariant AllEmissions(p, f, i, ds) == Then(done, AllEmissions(p, f, i, ds[k..]))
        invariant Valid() && log == old(log) + done
      {
        ghost var one := DirectiveEmissions(p, f, i, ds[k]);
        assert ds[k..][0] == ds[k] && ds[k..][1..] == ds[k + 1..];
        ThenTwice(done, one.emissions, AllEmissions(p, f, i, ds[k + 1..]));
        failure := ApplyDirective(p, f, i, ds[k]);
        if failure.Some? {
          return;
        }
        done := done + one.emissions;
      }
      ThenTwice(done, [], Walked([], None));
      return None;
    }

    /** The end of `parseEntityBuilderTags`: every list sorted, without repetitions. */
    method SortPaths()
      modifies this
      ensures forall slot :: Paths(slot) == UniqueSorted(old(Paths(slot)))
    {
      hide UniqueSorted;
      createPreloadPaths := UniqueSorted(createPreloadPaths);
      createSyncPaths := UniqueSorted(createSyncPaths);
      deleteSyncPaths := UniqueSorted(deleteSyncPaths);
      readPreloadPaths := UniqueSorted(readPreloadPaths);
      queryPreloadPaths := UniqueSorted(queryPreloadPaths);
      updatePreloadPaths := UniqueSorted(updatePreloadPaths);
      updateSyncPaths := UniqueSorted(updateSyncPaths);
    }
  }

  class Collector {
    const world: World
    const tags: EntityBuilderTags
    var visitedTypes: set<TypeId>

    constructor (world: World, tags: EntityBuilderTags, root: TypeId)
      ensures this.world == world && this.tags == tags && visitedTypes == {root}
    {
      this.world, this.tags, visitedTypes := world, tags, {root};
    }

    method CollectEntityBuilderTags(p: Place) returns (failure: Option<Failure>)
      requires tags.Valid() && Placed(world, p)
      modifies this, tags
      ensures visitedTypes == old(visitedTypes)
      ensures failure == Walk(world, p, visitedTypes, 0).failure
      ensures tags.Valid() && tags.log == old(tags.log) + Walk(world, p, visitedTypes, 0).emissions
      decreases world.types.Keys - visitedTypes, 2
    {
      hide FieldWalk, Placed, Next, EntityBuilderTags.Valid;
      ghost var done: seq<Emission> := [];
      ghost var whole := Walk(world, p, visitedTypes, 0);
      ThenTwice([], [], whole);
      for i := 0 to |world.Fields(p.typ)|
        invariant visitedTypes == old(visitedTypes)
        invariant whole == Then(done, Walk(world, p, visitedTypes, i))
        invariant tags.Valid() && tags.log == old(tags.log) + done
      {
        ghost var field := FieldWalk(world, p, visitedTypes, i);
        ThenTwice(done, field.emissions, Walk(world, p, visitedTypes, i + 1));
        var fieldFailure := CollectEntityBuilderTagField(p, i);
        if fieldFailure.Some? {
          return fieldFailure;
        }
        done := done + field.emissions;
      }
      assert done + [] == done;
      return None;
    }

    method CollectEntityBuilderTagField(p: Place, i: nat) returns (failure: Option<Failure>)
      requires tags.Valid() && Placed(world, p) && i < |world.Fields(p.typ)|
      modifies this, tags
      ensures visitedTypes == old(visitedTypes)
      ensures failure == FieldWalk(world, p, visitedTypes, i).failure
      ensures tags.Valid() && tags.log == old(tags.log) + FieldWalk(world, p, visitedTypes, i).emissions
      decreases world.types.Keys - visitedTypes, 1
    {
      hide AllEmissions, TagSyntax.Parse, Walk;
      var f := world.Fields(p.typ)[i];
      var tagValue := TrimSpace(f.tag);
      NextPlaced(world, p, i);
      if f.anonymous {
        if tagValue != "" {
          return Some(EmbeddedTag(RelationPath(p, f)));
        }
        var embedded := Indirect(f.typ);
        if !embedded.Struct? {
          return None;
        }
        failure := VisitEntityBuilderType(Place(embedded.id, p.schema, p.path, p.index + [i]));
        return;
      }

      var directives := TagSyntax.ParseSqlhTagValues(tagValue);
      if directives.Err? {
        return Some(Syntax(RelationPath(p, f), directives.error));
      }
      var directiveFailure := tags.ApplyDirectives(p, f, i, directives.value);
      if directiveFailure.Some? {
        return directiveFailure;
      }
      if !IsRelation(p, f, i) {
        return None;
      }
      var relation := p.schema.relationships[f.name];
      if relation.relatedSchema.None? {
        return Some(UnresolvedSchema(RelationPath(p, f)));
      }
      var next := Place(relation.relatedType, world.schemas[relation.relatedSchema.value], p.path + [f.name], []);
      failure := VisitEntityBuilderType(next);
    }

    /** Walks a type unless it is already on the stack; the deferred delete takes it off again. */
    method VisitEntityBuilderType(next: Place) returns (failure: Option<Failure>)
      requires tags.Valid() && Placed(world, next)
      modifies this, tags
      ensures tags.Valid()
      ensures visitedTypes == old(visitedTypes)
      ensures next.typ in visitedTypes ==> failure == None && tags.log == old(tags.log)
      ensures next.typ !in visitedTypes ==>
        var sub := Walk(world, next, visitedTypes + {next.typ}, 0);
        failure == sub.failure && tags.log == old(tags.log) + sub.emissions
      decreases world.types.Keys - visitedTypes, 0
    {
      if next.typ in visitedTypes {
        return None;
      }
      visitedTypes := visitedTypes + {next.typ};
      failure := CollectEntityBuilderTags(next);
      visitedTypes := visitedTypes - {next.typ};
    }
  }

  // ----- which paths are collected -----------------------------------------------------------

  ghost predicate NoRepeats(types: seq<TypeId>) {
    forall i, j :: 0 <= i < j < |types| ==> types[i] != types[j]
  }

  /** A chain of field choices: every field but the last leads to the place of the next one. */
  ghost predicate IsChain(w: World, p: Place, chain: seq<nat>)
    requires Placed(w, p)
    decreases chain
  {
    && chain != [] && chain[0] < |w.Fields(p.typ)|
    && (|chain| > 1 ==>
          var next := Next(w, p, w.Fields(p.typ)[chain[0]], chain[0]);
          NextPlaced(w, p, chain[0]);
          next.Some? && IsChain(w, next.value, chain[1..]))
  }

  /** The struct types that own the fields of a chain, embedded hosts included. */
  ghost function Owners(w: World, p: Place, chain: seq<nat>): (types: seq<TypeId>)
    requires Placed(w, p) && IsChain(w, p, chain)
    ensures |types| == |chain| && types[0] == p.typ
    decreases chain
  {
    if |chain| == 1 then [p.typ]
    else
      NextPlaced(w, p, chain[0]);
      [p.typ] + Owners(w, Next(w, p, w.Fields(p.typ)[chain[0]], chain[0]).value, chain[1..])
  }

  /** The place of a chain's last field. */
  ghost function End(w: World, p: Place, chain: seq<nat>): (q: Place)
    requires Placed(w, p) && IsChain(w, p, chain)
    ensures Placed(w, q) && chain[|chain| - 1] < |w.Fields(q.typ)|
    decreases chain
  {
    if |chain| == 1 then p
    else
      NextPlaced(w, p, chain[0]);
      End(w, Next(w, p, w.Fields(p.typ)[chain[0]], chain[0]).value, chain[1..])
  }

  /** A chain that enters no type of `visited` and no type twice. */
  ghost predicate Simple(w: World, p: Place, visited: set<TypeId>, chain: seq<nat>)
    requires Placed(w, p)
  {
    && IsChain(w, p, chain) && NoRepeats(Owners(w, p, chain))
    && forall k :: 1 <= k < |chain| ==> Owners(w, p, chain)[k] !in visited
  }

  /** What the last field of a chain contributes on its own. */
  ghost function Contribution(w: World, p: Place, chain: seq<nat>): Walked
    requires Placed(w, p) && IsChain(w, p, chain)
  {
    var q, i := End(w, p, chain), chain[|chain| - 1];
    FieldEmissions(q, w.Fields(q.typ)[i], i)
  }

  lemma SimpleStep(w: World, p: Place, visited: set<TypeId>, chain: seq<nat>)
    requires Placed(w, p) && p.typ in visited && |chain| > 1 && chain[0] < |w.Fields(p.typ)|
    ensures var next := Next(w, p, w.Fields(p.typ)[chain[0]], chain[0]);
            next.Some? ==> Placed(w, next.value)
    ensures var next := Next(w, p, w.Fields(p.typ)[chain[0]], chain[0]);
            Simple(w, p, visited, chain) <==>
            && next.Some? && next.value.typ !in visited
            && Simple(w, next.value, visited + {next.value.typ}, chain[1..])
    ensures IsChain(w, p, chain) ==>
            var next := Next(w, p, w.Fields(p.typ)[chain[0]], chain[0]).value;
            Contribution(w, p, chain) == Contribution(w, next, chain[1..])
  {
    hide FieldEmissions;
    NextPlaced(w, p, chain[0]);
    if IsChain(w, p, chain) {
      var next := Next(w, p, w.Fields(p.typ)[chain[0]], chain[0]).value;
      var types, rest := Owners(w, p, chain), Owners(w, next, chain[1..]);
      assert types == [p.typ] + rest;
      if Simple(w, p, visited, chain) {
        assert rest[0] == types[1] && next.typ !in visited;
        forall k | 1 <= k < |rest| ensures rest[k] !in visited + {next.typ} {
          assert rest[k] == types[k + 1];
          assert rest[0] != rest[k] by { assert rest[0] == types[1]; }
        }
        assert NoRepeats(rest) by {
          forall i, j | 0 <= i < j < |rest| ensures rest[i] != rest[j] {
            assert rest[i] == types[i + 1] && rest[j] == types[j + 1];
          }
        }
      }
      if next.typ !in visited && Simple(w, next, visited + {next.typ}, chain[1..]) {
        forall k | 1 <= k < |types| ensures types[k] !in visited {
          assert types[k] == rest[k - 1];
        }
      }
    }
  }

  /** Completeness: a walk without error has seen every simple chain, found no error there, and
      appended all that its last field contributes. */
  lemma {:induction false} WalkVisits(w: World, p: Place, visited: set<TypeId>, i: nat, chain: seq<nat>)
    requires Placed(w, p) && p.typ in visited && i <= |w.Fields(p.typ)|
    requires Walk(w, p, visited, i).failure.None?
    requires Simple(w, p, visited, chain) && chain[0] >= i
    ensures Contribution(w, p, chain).failure.None?
    ensures forall e :: e in Contribution(w, p, chain).emissions ==> e in Walk(w, p, visited, i).emissions
    decreases |chain|, |w.Fields(p.typ)| - i
  {
    hide FieldEmissions, Next;
    NextPlaced(w, p, i);
    if chain[0] > i {
      WalkVisits(w, p, visited, i + 1, chain);
    } else if |chain| > 1 {
      var next := Next(w, p, w.Fields(p.typ)[i], i).value;
      SimpleStep(w, p, visited, chain);
      WalkVisits(w, next, visited + {next.typ}, 0, chain[1..]);
    }
  }

  /** Soundness: everything a walk appended is contributed by the last field of a simple chain. */
  lemma {:induction false} WalkFrom(w: World, p: Place, visited: set<TypeId>, i: nat, e: Emission)
    returns (chain: seq<nat>)
    requires Placed(w, p) && p.typ in visited && i <= |w.Fields(p.typ)|
    requires e in Walk(w, p, visited, i).emissions
    ensures Simple(w, p, visited, chain) && chain[0] >= i
    ensures e in Contribution(w, p, chain).emissions
    decreases w.types.Keys - visited, |w.Fields(p.typ)| - i
  {
    hide FieldEmissions, Next;
    NextPlaced(w, p, i);
    var own := FieldEmissions(p, w.Fields(p.typ)[i], i);
    if e in own.emissions {
      chain := [i];
    } else if e in FieldWalk(w, p, visited, i).emissions {
      var next := Next(w, p, w.Fields(p.typ)[i], i).value;
      var rest := WalkFrom(w, next, visited + {next.typ}, 0, e);
      chain := [i] + rest;
      assert chain[1..] == rest;
      SimpleStep(w, p, visited, chain);
    } else {
      chain := WalkFrom(w, p, visited, i + 1, e);
    }
  }

  /** A walk that stops does so at a field, at the end of a simple chain, that is in error. */
  lemma {:induction false} WalkStops(w: World, p: Place, visited: set<TypeId>, i: nat) returns (chain: seq<nat>)
    requires Placed(w, p) && p.typ in visited && i <= |w.Fields(p.typ)|
    requires Walk(w, p, visited, i).failure.Some?
    ensures Simple(w, p, visited, chain) && chain[0] >= i
    ensures Contribution(w, p, chain).failure == Walk(w, p, visited, i).failure
    decreases w.types.Keys - visited, |w.Fields(p.typ)| - i
  {
    hide FieldEmissions, Next;
    NextPlaced(w, p, i);
    if FieldEmissions(p, w.Fields(p.typ)[i], i).failure.Some? {
      chain := [i];
    } else if FieldWalk(w, p, visited, i).failure.Some? {
      var next := Next(w, p, w.Fields(p.typ)[i], i).value;
      var rest := WalkStops(w, next, visited + {next.typ}, 0);
      chain := [i] + rest;
      assert chain[1..] == rest;
      SimpleStep(w, p, visited, chain);
    } else {
      chain := WalkStops(w, p, visited, i + 1);
    }
  }

  // ----- what one field contributes ----------------------------------------------------------

  /** A tag asks for a slot: one of its directives other than `field` lists the slot's phase. */
  ghost predicate AsksFor(tag: string, slot: Slot) {
    && TagSyntax.Parse(TrimSpace(tag)).Ok?
    && exists d, phase ::
      d in TagSyntax.Parse(TrimSpace(tag)).value && d.name != TagSyntax.FIELD && phase in d.phases
      && SlotOf(d.name, phase) == Some(slot)
  }

  lemma {:induction false} PhaseEmissionsExact(path: string, name: string, phases: seq<string>, e: Emission)
    requires PhaseEmissions(path, name, phases).failure.None?
    ensures e in PhaseEmissions(path, name, phases).emissions <==>
      e.path == path && exists phase :: phase in phases && SlotOf(name, phase) == Some(e.slot)
  {
    hide SlotOf;
    if phases != [] {
      PhaseEmissionsExact(path, name, phases[1..], e);
      assert phases == [phases[0]] + phases[1..];
    }
  }

  lemma {:induction false} AllEmissionsExact(p: Place, f: StructField, i: nat, ds: seq<TagSyntax.Directive>,
                                             e: Emission)
    requires AllEmissions(p, f, i, ds).failure.None?
    ensures e in AllEmissions(p, f, i, ds).emissions <==>
      e.path == RelationPath(p, f) && exists d, phase ::
        d in ds && d.name != TagSyntax.FIELD && phase in d.phases && SlotOf(d.name, phase) == Some(e.slot)
  {
    hide SlotOf, RelationPath, ColumnAtIndex;
    if ds != [] {
      AllEmissionsExact(p, f, i, ds[1..], e);
      assert ds == [ds[0]] + ds[1..];
      if ds[0].name != TagSyntax.FIELD {
        PhaseEmissionsExact(RelationPath(p, f), ds[0].name, ds[0].phases, e);
      }
    }
  }

  lemma FieldEmissionsExact(p: Place, f: StructField, i: nat, e: Emission)
    requires FieldEmissions(p, f, i).failure.None?
    ensures e in FieldEmissions(p, f, i).emissions <==>
      !f.anonymous && e.path == RelationPath(p, f) && AsksFor(f.tag, e.slot)
  {
    hide SlotOf, RelationPath, TagSyntax.Parse, AllEmissions;
    if !f.anonymous {
      AllEmissionsExact(p, f, i, TagSyntax.Parse(TrimSpace(f.tag)).value, e);
    }
  }

  // ----- trails ----------------------------------------------------------------------------------

  /** A field on the way from the entity type: the struct type that owns it, the schema that its columns
      and relationships are looked up in, and its number among the owner's fields. */
  datatype Step = Step(owner: TypeId, schema: Schema, number: nat)

  ghost predicate AreFields(w: World, t: seq<Step>) {
    forall k :: 0 <= k < |t| ==> t[k].number < |w.Fields(t[k].owner)|
  }

  function LastField(w: World, t: seq<Step>): StructField
    requires t != [] && AreFields(w, t)
  {
    var last := t[|t| - 1];
    w.Fields(last.owner)[last.number]
  }

  /** The index of the last field in the struct of its schema: its number, after those of the embedded
      fields passed since the last relation. */
  ghost function LastIndex(w: World, t: seq<Step>): Index
    requires t != [] && AreFields(w, t)
  {
    var init := t[..|t| - 1];
    (if init != [] && LastField(w, init).anonymous then LastIndex(w, init) else []) + [t[|t| - 1].number]
  }

  /** The names of the fields that are not embedded. */
  ghost function RelationNames(w: World, t: seq<Step>): seq<string>
    requires AreFields(w, t)
  {
    if t == [] then []
    else RelationNames(w, t[..|t| - 1]) + (if LastField(w, t).anonymous then [] else [LastField(w, t).name])
  }

  /** The field with this index is the field of the relationship of its name. */
  ghost predicate Relates(schema: Schema, f: StructField, index: Index) {
    f.name in schema.relationships && schema.relationships[f.name].fieldIndex == index
  }

  /** The last field embeds the next owner in the same struct, or is the field of a relationship with the
      next owner and its schema. */
  ghost predicate LeadsOn(w: World, t: seq<Step>, next: Step)
    requires t != [] && AreFields(w, t)
  {
    var f, schema := LastField(w, t), t[|t| - 1].schema;
    if f.anonymous then Indirect(f.typ) == Struct(next.owner) && next.schema == schema
    else
      && Relates(schema, f, LastIndex(w, t))
      && var r := schema.relationships[f.name];
      && r.relatedType == next.owner
      && r.relatedSchema.Some? && r.relatedSchema.value in w.schemas && w.schemas[r.relatedSchema.value] == next.schema
  }

  ghost predicate Linked(w: World, t: seq<Step>) {
    t != [] && AreFields(w, t) && forall k :: 1 <= k < |t| ==> LeadsOn(w, t[..k], t[k])
  }

  /** The fields passed on a way that starts at the entity type and enters no struct type twice. */
  ghost predicate Trail(w: World, entity: TypeId, schema: Schema, t: seq<Step>) {
    && Linked(w, t) && t[0].owner == entity && t[0].schema == schema
    && forall i, j :: 0 <= i < j < |t| ==> t[i].owner != t[j].owner
  }

  // ----- what a tag says -----------------------------------------------------------------------------

  /** One of the tag's directives has this name and lists this phase. */
  ghost predicate TaggedFor(tag: string, name: string, phase: string) {
    && TagSyntax.Parse(TrimSpace(tag)).Ok?
    && exists d :: d in TagSyntax.Parse(TrimSpace(tag)).value && d.name == name && phase in d.phases
  }

  ghost predicate Supported(name: string, phase: string) {
    || (name == "preload" && (phase == "create" || phase == "read" || phase == "query" || phase == "update"))
    || (name == "sync" && (phase == "create" || phase == "delete" || phase == "update"))
  }

  ghost predicate StoresIndex(columns: seq<Column>, index: Index) {
    exists k :: 0 <= k < |columns| && columns[k].fieldIndex == index
  }

  /** What is wrong with one directive of a field with this index that is not embedded: `field` on
      anything but an exported field stored in a column that SQL can compare; another directive on
      anything but the field of a relationship; a name or phase that is not supported. */
  ghost predicate DirectiveInError(schema: Schema, f: StructField, index: Index, d: TagSyntax.Directive) {
    if d.name == "field" then
      !(f.exported && SqlComparable(f.typ) && StoresIndex(schema.columns, index))
    else !Relates(schema, f, index) || exists phase :: phase in d.phases && !Supported(d.name, phase)
  }

  /** A tag on an embedded field, a tag that is not well-formed, a directive in error, or a relationship
      whose schema cannot be resolved. */
  ghost predicate FieldInError(schema: Schema, f: StructField, index: Index) {
    if f.anonymous then TrimSpace(f.tag) != ""
    else
      match TagSyntax.Parse(TrimSpace(f.tag))
      case Err(_) => true
      case Ok(ds) =>
        || (exists d :: d in ds && DirectiveInError(schema, f, index, d))
        || (Relates(schema, f, index) && schema.relationships[f.name].relatedSchema.None?)
  }

  ghost predicate TrailInError(w: World, t: seq<Step>)
    requires t != [] && AreFields(w, t)
  {
    FieldInError(t[|t| - 1].schema, LastField(w, t), LastIndex(w, t))
  }

  /** The path is that of a field so tagged: the names of the fields on a trail to it, embedded ones
      left out, joined by dots. */
  ghost predicate Collected(w: World, entity: TypeId, schema: Schema, name: string, phase: string, path: string) {
    exists t :: Trail(w, entity, schema, t) && EndsTagged(w, t, name, phase, path)
  }

  ghost predicate EndsTagged(w: World, t: seq<Step>, name: string, phase: string, path: string)
    requires t != [] && AreFields(w, t)
  {
    var f := LastField(w, t);
    !f.anonymous && TaggedFor(f.tag, name, phase) && path == Join(RelationNames(w, t), '.')
  }

  /** No field that a trail ends at is in error. */
  ghost predicate Clean(w: World, entity: TypeId, schema: Schema) {
    forall t :: Trail(w, entity, schema, t) ==> !TrailInError(w, t)
  }

  lemma {:induction false} PhaseFailureExact(path: string, name: string, phases: seq<string>)
    ensures PhaseEmissions(path, name, phases).failure.Some? <==>
      exists phase :: phase in phases && !Supported(name, phase)
  {
    if phases != [] {
      PhaseFailureExact(path, name, phases[1..]);
      assert phases == [phases[0]] + phases[1..];
      assert SlotOf(name, phases[0]).Some? <==> Supported(name, phases[0]);
      hide SlotOf, Supported;
    }
  }

  lemma DirectiveFailureExact(p: Place, f: StructField, i: nat, d: TagSyntax.Directive)
    ensures DirectiveEmissions(p, f, i, d).failure.Some? <==> DirectiveInError(p.schema, f, p.index + [i], d)
  {
    hide Supported, RelationPath;
    var index := p.index + [i];
    PhaseFailureExact(RelationPath(p, f), d.name, d.phases);
    HasColumn(p.schema.columns, index, f.typ);
  }

  lemma {:induction false} HasColumn(columns: seq<Column>, index: Index, t: GoType)
    ensures ColumnAtIndex(columns, index, t).Some? <==>
      SqlComparable(t) && StoresIndex(columns, index)
  {
    if columns != [] {
      if columns[0].fieldIndex != index {
        HasColumn(columns[1..], index, t);
        assert forall k :: 1 <= k < |columns| ==> columns[k] == columns[1..][k - 1];
        if k :| 0 <= k < |columns[1..]| && columns[1..][k].fieldIndex == index {
          assert columns[k + 1].fieldIndex == index;
        }
      }
    }
  }

  lemma {:induction false} AllFailureExact(p: Place, f: StructField, i: nat, ds: seq<TagSyntax.Directive>)
    ensures AllEmissions(p, f, i, ds).failure.Some? <==>
      exists d :: d in ds && DirectiveInError(p.schema, f, p.index + [i], d)
  {
    hide DirectiveEmissions, DirectiveInError;
    if ds != [] {
      DirectiveFailureExact(p, f, i, ds[0]);
      AllFailureExact(p, f, i, ds[1..]);
      assert ds == [ds[0]] + ds[1..];
    }
  }

  lemma FieldFailureExact(p: Place, f: StructField, i: nat)
    ensures FieldEmissions(p, f, i).failure.Some? <==> FieldInError(p.schema, f, p.index + [i])
  {
    hide AllEmissions, DirectiveInError, TagSyntax.Parse;
    if !f.anonymous && TagSyntax.Parse(TrimSpace(f.tag)).Ok? {
      AllFailureExact(p, f, i, TagSyntax.Parse(TrimSpace(f.tag)).value);
    }
  }

  lemma AsksForTagged(tag: string, name: string, phase: string)
    requires Supported(name, phase)
    ensures SlotOf(name, phase).Some? && (AsksFor(tag, SlotOf(name, phase).value) <==> TaggedFor(tag, name, phase))
  {
    hide TagSyntax.Parse;
    assert forall n, x :: SlotOf(n, x) == SlotOf(name, phase) <==> n == name && x == phase;
  }

  // ----- trails and chains -----------------------------------------------------------------------------

  /** The walk stands at this place when it comes to the trail's last field. */
  ghost predicate Stands(w: World, t: seq<Step>, p: Place)
    requires t != [] && AreFields(w, t)
  {
    var last := t[|t| - 1];
    && p.typ == last.owner && p.schema == last.schema
    && p.index + [last.number] == LastIndex(w, t)
    && p.path == RelationNames(w, t[..|t| - 1])
  }

  lemma StandsAtField(w: World, t: seq<Step>, p: Place)
    requires t != [] && AreFields(w, t) && Stands(w, t, p)
    ensures var f, i := LastField(w, t), t[|t| - 1].number;
            && (FieldEmissions(p, f, i).failure.Some? <==> TrailInError(w, t))
            && (!f.anonymous ==> RelationPath(p, f) == Join(RelationNames(w, t), '.'))
  {
    hide FieldEmissions, FieldInError;
    FieldFailureExact(p, LastField(w, t), t[|t| - 1].number);
  }

  /** A trail goes on exactly where the walk does. */
  lemma LeadsWhereNext(w: World, t: seq<Step>, p: Place, s: Step)
    requires t != [] && AreFields(w, t) && Stands(w, t, p)
    ensures var next := Next(w, p, LastField(w, t), t[|t| - 1].number);
            && (LeadsOn(w, t, s) <==> next.Some? && next.value.typ == s.owner && next.value.schema == s.schema)
            && (LeadsOn(w, t, s) && AreFields(w, t + [s]) ==> Stands(w, t + [s], next.value))
  {
    assert (t + [s])[..|t|] == t;
    if LeadsOn(w, t, s) && AreFields(w, t + [s]) {
      var next := Next(w, p, LastField(w, t), t[|t| - 1].number).value;
      assert t[..|t| - 1] + [t[|t| - 1]] == t;
      assert next.index + [s.number] == LastIndex(w, t + [s]);
    }
  }

  ghost function Numbers(t: seq<Step>): seq<nat> {
    seq(|t|, k requires 0 <= k < |t| => t[k].number)
  }

  ghost function OwnersOf(t: seq<Step>): seq<TypeId> {
    seq(|t|, k requires 0 <= k < |t| => t[k].owner)
  }

  /** Where a trail goes on from one of its fields, so does the walk. */
  lemma WalkGoesOn(w: World, t: seq<Step>, n: nat, p: Place) returns (next: Place)
    requires Linked(w, t) && n + 1 < |t| && Stands(w, t[..n + 1], p) && Placed(w, p)
    ensures p.typ == t[n].owner && t[n].number < |w.Fields(p.typ)|
    ensures Next(w, p, w.Fields(p.typ)[t[n].number], t[n].number) == Some(next)
    ensures Placed(w, next) && Stands(w, t[..n + 2], next)
  {
    hide Next, LeadsOn, Stands, Placed, LastIndex, RelationNames, World.Fields;
    StandsThere(w, t[..n + 1], p);
    NextPlaced(w, p, t[n].number);
    assert t[..n + 1] + [t[n + 1]] == t[..n + 2];
    LeadsWhereNext(w, t[..n + 1], p, t[n + 1]);
    next := Next(w, p, w.Fields(p.typ)[t[n].number], t[n].number).value;
  }

  lemma ChainGoesOn(w: World, p: Place, head: nat, tail: seq<nat>, next: Place)
    requires Placed(w, p) && head < |w.Fields(p.typ)| && Next(w, p, w.Fields(p.typ)[head], head) == Some(next)
    requires Placed(w, next) && IsChain(w, next, tail)
    ensures IsChain(w, p, [head] + tail) && End(w, p, [head] + tail) == End(w, next, tail)
    ensures Owners(w, p, [head] + tail) == [p.typ] + Owners(w, next, tail)
  {
    hide Next;
    assert ([head] + tail)[1..] == tail;
  }

  /** The part of a trail from some field on is a chain from where the walk stands there. */
  lemma {:induction false} TrailIsChain(w: World, t: seq<Step>, n: nat, p: Place)
    requires Linked(w, t) && n < |t| && Stands(w, t[..n + 1], p) && Placed(w, p)
    ensures IsChain(w, p, Numbers(t)[n..])
    ensures Stands(w, t, End(w, p, Numbers(t)[n..]))
    ensures Owners(w, p, Numbers(t)[n..]) == OwnersOf(t)[n..]
    decreases |t| - n
  {
    hide Next, LeadsOn, Stands, Placed, LastIndex, RelationNames, World.Fields;
    if n == |t| - 1 {
      StandsThere(w, t[..n + 1], p);
      assert t[..n + 1] == t;
    } else {
      hide Linked, IsChain, End, Owners;
      var next := WalkGoesOn(w, t, n, p);
      TrailIsChain(w, t, n + 1, next);
      ChainGoesOn(w, p, t[n].number, Numbers(t)[n + 1..], next);
      assert Numbers(t)[n..] == [t[n].number] + Numbers(t)[n + 1..];
      assert OwnersOf(t)[n..] == [p.typ] + OwnersOf(t)[n + 1..];
    }
  }

  lemma StandsThere(w: World, t: seq<Step>, p: Place)
    requires t != [] && AreFields(w, t) && Stands(w, t, p)
    ensures p.typ == t[|t| - 1].owner
  {
  }

  /** A chain continues a trail. */
  lemma {:induction false} ChainIsTrail(w: World, t: seq<Step>, p: Place, chain: seq<nat>) returns (whole: seq<Step>)
    requires Linked(w, t) && Stands(w, t, p) && Placed(w, p) && IsChain(w, p, chain) && t[|t| - 1].number == chain[0]
    ensures Linked(w, whole) && |t| <= |whole| && whole[..|t|] == t && Numbers(whole)[|t| - 1..] == chain
    decreases chain
  {
    hide Next, LeadsOn, Stands, Placed;
    whole := t;
    if |chain| > 1 {
      StandsThere(w, t, p);
      NextPlaced(w, p, chain[0]);
      var next := Next(w, p, w.Fields(p.typ)[chain[0]], chain[0]).value;
      var s := Step(next.typ, next.schema, chain[1]);
      LeadsWhereNext(w, t, p, s);
      assert (t + [s])[..|t|] == t;
      LinkedAdd(w, t, s);
      whole := ChainIsTrail(w, t + [s], next, chain[1..]);
      assert whole[..|t|] == whole[..|t| + 1][..|t|];
      assert Numbers(whole)[|t| - 1..] == [whole[|t| - 1].number] + Numbers(whole)[|t|..];
    }
  }

  lemma LinkedAdd(w: World, t: seq<Step>, s: Step)
    requires Linked(w, t) && s.number < |w.Fields(s.owner)| && LeadsOn(w, t, s)
    ensures Linked(w, t + [s])
  {
    hide LeadsOn;
    var more := t + [s];
    forall k | 1 <= k < |more| ensures LeadsOn(w, more[..k], more[k]) {
      assert more[..k] == t[..k];
      if k == |t| {
        assert t[..k] == t;
      }
    }
  }

  // ----- the whole collector -----------------------------------------------------------------

  function Root(id: TypeId, schema: Schema): Place {
    Place(id, schema, [], [])
  }

  lemma RootSimple(w: World, root: Place, chain: seq<nat>)
    requires Placed(w, root)
    ensures Simple(w, root, {root.typ}, chain) <==> IsChain(w, root, chain) && NoRepeats(Owners(w, root, chain))
  {
  }

  /** A trail is a simple chain from the root, and the walk stands at the same place at its end. */
  lemma TrailIsSimple(w: World, entity: TypeId, schema: Schema, t: seq<Step>)
    requires Placed(w, Root(entity, schema)) && Trail(w, entity, schema, t)
    ensures var root := Root(entity, schema);
            && Simple(w, root, {entity}, Numbers(t)) && Stands(w, t, End(w, root, Numbers(t)))
            && Numbers(t)[|t| - 1] == t[|t| - 1].number
  {
    hide LeadsOn, Placed;
    var root := Root(entity, schema);
    assert Stands(w, t[..1], root) by {
      assert t[..1][..0] == [];
    }
    assert t[..0 + 1] == t[..1] && Numbers(t)[0..] == Numbers(t) && OwnersOf(t)[0..] == OwnersOf(t);
    TrailIsChain(w, t, 0, root);
    RootSimple(w, root, Numbers(t));
  }

  lemma SimpleIsTrail(w: World, entity: TypeId, schema: Schema, chain: seq<nat>) returns (t: seq<Step>)
    requires Placed(w, Root(entity, schema)) && Simple(w, Root(entity, schema), {entity}, chain)
    ensures Trail(w, entity, schema, t) && Numbers(t) == chain
  {
    hide LeadsOn, Placed;
    var root := Root(entity, schema);
    var first := [Step(entity, schema, chain[0])];
    assert Stands(w, first, root) by {
      assert first[..0] == [];
    }
    t := ChainIsTrail(w, first, root, chain);
    assert t[0] == t[..1][0];
    assert Numbers(t)[0..] == Numbers(t);
    assert t[..0 + 1] == first;
    TrailIsChain(w, t, 0, root);
    RootSimple(w, root, chain);
    assert OwnersOf(t)[0..] == OwnersOf(t);
    forall i, j | 0 <= i < j < |t| ensures t[i].owner != t[j].owner {
      assert OwnersOf(t)[i] != OwnersOf(t)[j];
    }
  }

  /** What a trail's last field contributes to the walk. */
  lemma TrailEnds(w: World, entity: TypeId, schema: Schema, t: seq<Step>)
    requires Placed(w, Root(entity, schema)) && Trail(w, entity, schema, t)
    ensures Simple(w, Root(entity, schema), {entity}, Numbers(t))
    ensures var own := Contribution(w, Root(entity, schema), Numbers(t));
            && (own.failure.Some? <==> TrailInError(w, t))
            && (own.failure.None? ==> forall name, phase, path :: Supported(name, phase) ==>
                  (Emission(SlotOf(name, phase).value, path) in own.emissions <==> EndsTagged(w, t, name, phase, path)))
  {
    hide Placed, LeadsOn, IsChain, Owners, FieldEmissions, AsksFor, TaggedFor, RelationPath, Stands, FieldInError,
      Supported;
    var root := Root(entity, schema);
    TrailIsSimple(w, entity, schema, t);
    var q, i := End(w, root, Numbers(t)), t[|t| - 1].number;
    StandsThere(w, t, q);
    StandsAtField(w, t, q);
    var f := LastField(w, t);
    forall name, phase, path | Supported(name, phase) && FieldEmissions(q, f, i).failure.None?
      ensures SlotOf(name, phase).Some?
      ensures Emission(SlotOf(name, phase).value, path) in FieldEmissions(q, f, i).emissions <==>
        EndsTagged(w, t, name, phase, path)
    {
      AsksForTagged(f.tag, name, phase);
      FieldEmissionsExact(q, f, i, Emission(SlotOf(name, phase).value, path));
    }
  }

  /** The walk succeeds exactly if no trail from the root ends at a field in error. */
  lemma WalkIsClean(w: World, entity: TypeId, schema: Schema)
    requires Placed(w, Root(entity, schema))
    ensures Walk(w, Root(entity, schema), {entity}, 0).failure.None? <==> Clean(w, entity, schema)
  {
    hide Contribution, Walk, Placed, LeadsOn, Simple, TrailInError, EndsTagged;
    var root := Root(entity, schema);
    if Walk(w, root, {entity}, 0).failure.Some? {
      var chain := WalkStops(w, root, {entity}, 0);
      var t := SimpleIsTrail(w, entity, schema, chain);
      TrailEnds(w, entity, schema, t);
    } else {
      forall t | Trail(w, entity, schema, t) ensures !TrailInError(w, t) {
        TrailEnds(w, entity, schema, t);
        WalkVisits(w, root, {entity}, 0, Numbers(t));
      }
    }
  }

  lemma WalkCollects(w: World, entity: TypeId, schema: Schema, name: string, phase: string, path: string)
    requires Placed(w, Root(entity, schema)) && Walk(w, Root(entity, schema), {entity}, 0).failure.None?
    requires Supported(name, phase)
    ensures SlotOf(name, phase).Some?
    ensures Emission(SlotOf(name, phase).value, path) in Walk(w, Root(entity, schema), {entity}, 0).emissions <==>
      Collected(w, entity, schema, name, phase, path)
  {
    AsksForTagged("", name, phase);
    hide Contribution, Walk, Placed, LeadsOn, Simple, TrailInError, EndsTagged, SlotOf, Supported;
    var root := Root(entity, schema);
    var e := Emission(SlotOf(name, phase).value, path);
    if e in Walk(w, root, {entity}, 0).emissions {
      var chain := WalkFrom(w, root, {entity}, 0, e);
      var t := SimpleIsTrail(w, entity, schema, chain);
      WalkVisits(w, root, {entity}, 0, chain);
      TrailEnds(w, entity, schema, t);
    }
    if Collected(w, entity, schema, name, phase, path) {
      var t :| Trail(w, entity, schema, t) && EndsTagged(w, t, name, phase, path);
      TrailEnds(w, entity, schema, t);
      WalkVisits(w, root, {entity}, 0, Numbers(t));
    }
  }

  /** A path list of the entity is strictly increasing and holds exactly the paths of the fields that are
      tagged for this phase. */
  ghost predicate Lists(w: World, entity: TypeId, schema: Schema, name: string, phase: string, paths: seq<string>) {
    StrictlySorted(paths) && forall path :: path in paths <==> Collected(w, entity, schema, name, phase, path)
  }

  /** `parseEntityBuilderTags`: succeeds exactly when no trail of the entity ends at a field in error, and
      then each of the lists holds the paths of the fields tagged for it. */
  method ParseEntityBuilderTags(w: World, entity: GoType, schema: Schema)
    returns (tags: EntityBuilderTags, failed: bool)
    requires w.Closed() && w.SchemaClosed(schema)
    requires Indirect(entity).Struct? ==> Indirect(entity).id in w.types
    ensures fresh(tags)
    ensures failed <==> !(Indirect(entity).Struct? && Clean(w, Indirect(entity).id, schema))
    ensures !failed ==>
      var id := Indirect(entity).id;
      && Lists(w, id, schema, "preload", "create", tags.createPreloadPaths)
      && Lists(w, id, schema, "preload", "read", tags.readPreloadPaths)
      && Lists(w, id, schema, "preload", "query", tags.queryPreloadPaths)
      && Lists(w, id, schema, "preload", "update", tags.updatePreloadPaths)
      && Lists(w, id, schema, "sync", "create", tags.createSyncPaths)
      && Lists(w, id, schema, "sync", "delete", tags.deleteSyncPaths)
      && Lists(w, id, schema, "sync", "update", tags.updateSyncPaths)
  {
    hide Walk, Collected, Clean, Select, UniqueSorted, StrictlySorted, Lists;
    tags := new EntityBuilderTags();
    if !Indirect(entity).Struct? {
      return tags, true;
    }
    var root := Root(Indirect(entity).id, schema);
    var collector := new Collector(w, tags, root.typ);
    var failure := collector.CollectEntityBuilderTags(root);
    WalkIsClean(w, root.typ, schema);
    if failure.Some? {
      return tags, true;
    }
    ghost var log := tags.log;
    assert log == [] + Walk(w, root, {root.typ}, 0).emissions;
    tags.SortPaths();
    failed := false;
    SelectedAreCollected(w, root.typ, schema, log, "preload", "create");
    SelectedAreCollected(w, root.typ, schema, log, "preload", "read");
    SelectedAreCollected(w, root.typ, schema, log, "preload", "query");
    SelectedAreCollected(w, root.typ, schema, log, "preload", "update");
    SelectedAreCollected(w, root.typ, schema, log, "sync", "create");
    SelectedAreCollected(w, root.typ, schema, log, "sync", "delete");
    SelectedAreCollected(w, root.typ, schema, log, "sync", "update");
    assert tags.createPreloadPaths == tags.Paths(CreatePreload) && tags.readPreloadPaths == tags.Paths(ReadPreload);
    assert tags.queryPreloadPaths == tags.Paths(QueryPreload) && tags.updatePreloadPaths == tags.Paths(UpdatePreload);
    assert tags.createSyncPaths == tags.Paths(CreateSync) && tags.deleteSyncPaths == tags.Paths(DeleteSync);
    assert tags.updateSyncPaths == tags.Paths(UpdateSync);
  }

  lemma SelectedAreCollected(w: World, entity: TypeId, schema: Schema, log: seq<Emission>, name: string, phase: string)
    requires Placed(w, Root(entity, schema)) && Walk(w, Root(entity, schema), {entity}, 0) == Walked(log, None)
    requires Supported(name, phase)
    ensures SlotOf(name, phase).Some?
    ensures Lists(w, entity, schema, name, phase, UniqueSorted(Select(log, SlotOf(name, phase).value)))
  {
    AsksForTagged("", name, phase);
    hide Walk, Collected, Select, UniqueSorted, StrictlySorted, SlotOf;
    var slot := SlotOf(name, phase).value;
    UniqueSortedSpec(Select(log, slot));
    forall path ensures path in Select(log, slot) <==> Collected(w, entity, schema, name, phase, path) {
      SelectIn(log, slot, path);
      WalkCollects(w, entity, schema, name, phase, path);
    }
  }
}
