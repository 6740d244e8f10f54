/**
 SQLR's query builders as records of what was asked of them, and the composition of closures over
 them in builders.go and resource.go. A trusted closure is an arbitrary function on the record.
 */
module Builders {
  import opened Wrappers

  datatype JoinKind = LeftJoin | InnerJoin

  /** A join asked for explicitly by trusted code, or by default for a public field. */
  datatype Join = Join(relation: string, kind: JoinKind, explicit: bool)

  datatype OrderKey = OrderKey(column: string, direction: string)

  /** What a SELECT builder has recorded; `T` is what one WHERE condition is evaluated on. */
  datatype Select<!T> = Select(preloads: seq<string>, joins: seq<Join>, wheres: seq<T -> bool>, order: seq<OrderKey>,
                               limit: nat, offset: nat, forUpdate: bool)

  function NewSelect<T>(): Select<T> {
    Select([], [], [], [], 0, 0, false)
  }

  type ScopeError = int

  type Scope<!T> = Select<T> -> Result<Select<T>, ScopeError>

  type Modifier<!T> = Select<T> -> Select<T>

  function DefaultJoins(relations: seq<string>): seq<Join> {
    seq(|relations|, i requires 0 <= i < |relations| => Join(relations[i], LeftJoin, false))
  }

  class QueryBuilderSelect<!T> {
    var state: Select<T>

    constructor ()
      ensures state == NewSelect()
    {
      state := NewSelect();
    }

    method Preload(path: string)
      modifies this
      ensures state == old(state).(preloads := old(state).preloads + [path])
    {
      state := state.(preloads := state.preloads + [path]);
    }

    method DefaultJoin(kind: JoinKind, relation: string)
      modifies this
      ensures state == old(state).(joins := old(state).joins + [Join(relation, kind, false)])
    {
      state := state.(joins := state.joins + [Join(relation, kind, false)]);
    }

    method Where(condition: T -> bool)
      modifies this
      ensures state == old(state).(wheres := old(state).wheres + [condition])
    {
      state := state.(wheres := state.wheres + [condition]);
    }

    method OrderBy(keys: seq<OrderKey>)
      modifies this
      ensures state == old(state).(order := old(state).order + keys)
    {
      state := state.(order := state.order + keys);
    }

    method Limit(n: nat)
      modifies this
      ensures state == old(state).(limit := n)
    {
      state := state.(limit := n);
    }

    method Offset(n: nat)
      modifies this
      ensures state == old(state).(offset := n)
    {
      state := state.(offset := n);
    }

    method ForUpdate()
      modifies this
      ensures state == old(state).(forUpdate := true)
    {
      state := state.(forUpdate := true);
    }
  }

  // ----- composition ---------------------------------------------------------------------------

  function Composed<T>(scopes: seq<Option<Scope<T>>>, s: Select<T>): Result<Select<T>, ScopeError> {
    if scopes == [] then Ok(s)
    else if scopes[0].None? then Composed(scopes[1..], s)
    else
      var next :- (scopes[0].value)(s);
      Composed(scopes[1..], next)
  }

  /** `composeScopes`: applies the scopes in order up to the first error; nil scopes are skipped. */
  method ApplyScopes<T>(scopes: seq<Option<Scope<T>>>, qb: QueryBuilderSelect<T>) returns (error: Option<ScopeError>)
    modifies qb
    ensures var result := Composed(scopes, old(qb.state));
            && (error.None? <==> result.Ok?)
            && (result.Ok? ==> qb.state == result.value)
            && (result.Err? ==> error == Some(result.error))
  {
    assert scopes[0..] == scopes;
    for i := 0 to |scopes|
      invariant Composed(scopes, old(qb.state)) == Composed(scopes[i..], qb.state)
    {
      assert scopes[i..][0] == scopes[i] && scopes[i..][1..] == scopes[i + 1..];
      if scopes[i].Some? {
        var next := (scopes[i].value)(qb.state);
        if next.Err? {
          return Some(next.error);
        }
        qb.state := next.value;
      }
    }
    return None;
  }

  function Modified<T>(modifiers: seq<Option<Modifier<T>>>, s: Select<T>): Select<T> {
    if modifiers == [] then s
    else Modified(modifiers[1..], if modifiers[0].Some? then (modifiers[0].value)(s) else s)
  }

  /** `composeBuilders`. */
  method ApplyModifiers<T>(modifiers: seq<Option<Modifier<T>>>, qb: QueryBuilderSelect<T>)
    modifies qb
    ensures qb.state == Modified(modifiers, old(qb.state))
  {
    assert modifiers[0..] == modifiers;
    for i := 0 to |modifiers|
      invariant Modified(modifiers, old(qb.state)) == Modified(modifiers[i..], qb.state)
    {
      assert modifiers[i..][0] == modifiers[i] && modifiers[i..][1..] == modifiers[i + 1..];
      if modifiers[i].Some? {
        qb.state := (modifiers[i].value)(qb.state);
      }
    }
  }

  /** The tag builders' loop: one preload per path. */
  method ApplyPreloads<T>(paths: seq<string>, qb: QueryBuilderSelect<T>)
    modifies qb
    ensures qb.state == old(qb.state).(preloads := old(qb.state).preloads + paths)
  {
    for i := 0 to |paths|
      invariant qb.state == old(qb.state).(preloads := old(qb.state).preloads + paths[..i])
    {
      assert paths[..i + 1] == paths[..i] + [paths[i]];
      qb.Preload(paths[i]);
    }
    assert paths[..|paths|] == paths;
  }
}
