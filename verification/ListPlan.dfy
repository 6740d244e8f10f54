/**
 Listing in resource.go and filters.go: rows and count are prepared from one scope; ordering and
 pagination apply to rows only. A small relational semantics of SELECT says what that achieves.
 */
module ListPlan {
  import opened Builders
  import opened FieldNames
  import opened QueryFields
  import opened QueryFilters
  import opened Text
  import opened Wrappers

  // ----- what a query returns --------------------------------------------------------------------

  /** A base row with the rows joined to it, by relation; None stands for SQL's NULLs. */
  datatype Tuple<+R, +Q> = Tuple(base: R, joined: map<string, Option<Q>>)

  /** The base table and the rows related to a base row. `atMost` compares two rows by one key of an
      ORDER BY. `arrange` is how the database arranges a result in its n-th execution of a query: what
      the ORDER BY leaves open may come out differently each time. */
  datatype Database<!R, !Q> = Database(
    rows: seq<R>, related: (string, R) -> seq<Q>,
    atMost: (OrderKey, Tuple<R, Q>, Tuple<R, Q>) -> bool,
    arrange: (nat, seq<OrderKey>, seq<Tuple<R, Q>>) -> seq<Tuple<R, Q>>)

  /** The joined relations, each once. */
  function Joined(joins: seq<Join>): seq<string> {
    if joins == [] then []
    else AppendUnique(Joined(joins[..|joins| - 1]), joins[|joins| - 1].relation)
  }

  /** An explicit join takes precedence over default joins of the same relation, in any order. */
  function KindOf(joins: seq<Join>, relation: string): JoinKind {
    if joins == [] then LeftJoin
    else if joins[0].explicit && joins[0].relation == relation then joins[0].kind
    else KindOf(joins[1..], relation)
  }

  function WithJoined<R, Q>(t: Tuple<R, Q>, relation: string, row: Option<Q>): Tuple<R, Q> {
    t.(joined := t.joined[relation := row])
  }

  function ExpandOne<R, Q>(t: Tuple<R, Q>, relation: string, kind: JoinKind, matches: seq<Q>): seq<Tuple<R, Q>> {
    if matches == [] then (if kind == LeftJoin then [WithJoined(t, relation, None)] else [])
    else seq(|matches|, i requires 0 <= i < |matches| => WithJoined(t, relation, Some(matches[i])))
  }

  function Expand<R, Q>(db: Database<R, Q>, tuples: seq<Tuple<R, Q>>, relation: string, kind: JoinKind):
    seq<Tuple<R, Q>>
  {
    if tuples == [] then []
    else
      ExpandOne(tuples[0], relation, kind, db.related(relation, tuples[0].base)) +
      Expand(db, tuples[1..], relation, kind)
  }

  function ExpandAll<R, Q>(db: Database<R, Q>, tuples: seq<Tuple<R, Q>>, relations: seq<string>, joins: seq<Join>):
    seq<Tuple<R, Q>>
  {
    if relations == [] then tuples
    else
      var last := relations[|relations| - 1];
      Expand(db, ExpandAll(db, tuples, relations[..|relations| - 1], joins), last, KindOf(joins, last))
  }

  predicate Holds<T>(wheres: seq<T -> bool>, t: T) {
    forall i :: 0 <= i < |wheres| ==> wheres[i](t)
  }

  function Filtered<T>(wheres: seq<T -> bool>, ts: seq<T>): seq<T> {
    if ts == [] then []
    else (if Holds(wheres, ts[0]) then [ts[0]] else []) + Filtered(wheres, ts[1..])
  }

  function Bases<R, Q>(ts: seq<Tuple<R, Q>>): seq<R> {
    seq(|ts|, i requires 0 <= i < |ts| => ts[i].base)
  }

  function Unjoined<R, Q>(rows: seq<R>): seq<Tuple<R, Q>> {
    seq(|rows|, i requires 0 <= i < |rows| => Tuple(rows[i], map[]))
  }

  /** FROM, JOIN and WHERE. */
  function Matching<R, Q>(db: Database<R, Q>, s: Select<Tuple<R, Q>>): seq<Tuple<R, Q>> {
    Filtered(s.wheres, ExpandAll(db, Unjoined(db.rows), Joined(s.joins), s.joins))
  }

  /** LIMIT and OFFSET; a limit of zero is none. */
  function Page<T>(ts: seq<T>, limit: nat, offset: nat): seq<T> {
    if offset >= |ts| then [] else if limit == 0 || offset + limit >= |ts| then ts[offset..]
      else ts[offset..offset + limit]
  }

  function QueryRows<R, Q>(db: Database<R, Q>, execution: nat, s: Select<Tuple<R, Q>>): seq<R> {
    Bases(Page(db.arrange(execution, s.order, Matching(db, s)), s.limit, s.offset))
  }

  function CountRows<R, Q>(db: Database<R, Q>, s: Select<Tuple<R, Q>>): nat {
    |Matching(db, s)|
  }

  // ----- the request -----------------------------------------------------------------------------

  datatype ListPage = ListPage(limit: int, offset: int)

  datatype ListInput<!T> = ListInput(forceFilters: seq<Modifier<T>>, filter: Filter, orderBy: seq<OrderRequest>,
    page: ListPage)

  datatype PageError = NegativeLimit | NegativeOffset | OffsetWithoutLimit

  /** A filter without a kind adds no condition. */
  function Condition(filter: ColumnFilter): Option<ColumnFilter> {
    if filter.kind.NoKind? then None else Some(filter)
  }

  /** `ValidatePagination`. */
  function ValidatePagination(page: ListPage): Option<PageError> {
    if page.limit < 0 then Some(NegativeLimit)
    else if page.offset < 0 then Some(NegativeOffset)
    else if page.offset > 0 && page.limit == 0 then Some(OffsetWithoutLimit)
    else None
  }

  /** `ValidateQueryModifiers`. */
  method ValidateQueryModifiers(sqlc: Sqlc, orderBy: seq<OrderRequest>) returns (bad: Option<nat>)
    ensures bad.None? <==> forall i :: 0 <= i < |orderBy| ==> sqlc.direction(orderBy[i].direction)
  {
    for i := 0 to |orderBy|
      invariant forall k :: 0 <= k < i ==> sqlc.direction(orderBy[k].direction)
    {
      if !sqlc.direction(orderBy[i].direction) {
        return Some(i);
      }
    }
    return None;
  }

  function Paginated<T>(s: Select<T>, page: ListPage): Select<T> {
    var limited := if page.limit > 0 then s.(limit := page.limit) else s;
    if page.offset > 0 then limited.(offset := page.offset) else limited
  }

  function Forced<T>(filters: seq<Modifier<T>>, s: Select<T>): Select<T> {
    if filters == [] then s else Forced(filters[1..], filters[0](s))
  }

  /** `applyForceFilters`. */
  method ApplyForceFilters<T>(filters: seq<Modifier<T>>, qb: QueryBuilderSelect<T>)
    modifies qb
    ensures qb.state == Forced(filters, old(qb.state))
  {
    assert filters[0..] == filters;
    for i := 0 to |filters|
      invariant Forced(filters, old(qb.state)) == Forced(filters[i..], qb.state)
    {
      assert filters[i..][0] == filters[i] && filters[i..][1..] == filters[i + 1..];
      qb.state := filters[i](qb.state);
    }
  }

  // ----- the plan --------------------------------------------------------------------------------

  /** The server's part of a list: preloads from tags, the delete-visibility scope, and the trusted
      extensions of a custom input. */
  datatype Policy<!T> = Policy(preloads: seq<string>, visibility: Option<Modifier<T>>,
                               trustedFilters: Option<Scope<T>>, trustedModifiers: Option<Modifier<T>>)

  /** Visibility, force filters and public filters, in that order. */
  function Untrusted<T>(policy: Policy<T>, forceFilters: seq<Modifier<T>>, joins: seq<string>,
                        filter: Option<ColumnFilter>, meaning: ColumnFilter -> (T -> bool)): Select<T>
  {
    var built := NewSelect<T>().(preloads := policy.preloads);
    var visible := if policy.visibility.Some? then (policy.visibility.value)(built) else built;
    FiltersApplied(Forced(forceFilters, visible), joins, filter, meaning)
  }

  /** The scope shared by rows and count: these, and trusted filters last. */
  function Scoped<T>(policy: Policy<T>, forceFilters: seq<Modifier<T>>, joins: seq<string>,
                     filter: Option<ColumnFilter>, meaning: ColumnFilter -> (T -> bool)):
    Result<Select<T>, ScopeError>
  {
    var public := Untrusted(policy, forceFilters, joins, filter, meaning);
    if policy.trustedFilters.Some? then (policy.trustedFilters.value)(public) else Ok(public)
  }

  /** What only rows get: trusted modifiers, then order joins and ordering, then the page. */
  function RowsOnly<T>(policy: Policy<T>, s: Select<T>, orderJoins: seq<string>, order: seq<OrderKey>, page: ListPage):
    Select<T>
  {
    var modified := if policy.trustedModifiers.Some? then (policy.trustedModifiers.value)(s) else s;
    Paginated(OrderApplied(modified, orderJoins, order), page)
  }

  // ----- restricting scopes ------------------------------------------------------------------------

  /** A scope that does nothing but add WHERE conditions of its own. */
  ghost predicate Restricts<T(!new)>(m: Modifier<T>) {
    forall s: Select<T> :: m(s) == s.(wheres := s.wheres + m(NewSelect()).wheres)
  }

  /** A trusted filter that does the same, or fails on every builder. */
  ghost predicate RestrictsOrFails<T(!new)>(scope: Scope<T>) {
    forall s: Select<T> :: scope(s) ==
      match scope(NewSelect())
      case Ok(own) => Ok(s.(wheres := s.wheres + own.wheres))
      case Err(e) => Err(e)
  }

  /** What is matched satisfies the conditions a scope adds. */
  predicate Admits<T>(m: Modifier<T>, t: T) {
    Holds(m(NewSelect()).wheres, t)
  }

  ghost predicate RestrictingPolicy<T(!new)>(policy: Policy<T>, forceFilters: seq<Modifier<T>>) {
    && (policy.visibility.Some? ==> Restricts(policy.visibility.value))
    && (forall i :: 0 <= i < |forceFilters| ==> Restricts(forceFilters[i]))
    && (policy.trustedFilters.Some? ==> RestrictsOrFails(policy.trustedFilters.value))
  }

  /** The conditions that the delete-visibility scope adds hold, and those of every force filter and of
      the trusted filters, which do not fail. */
  predicate Allowed<T>(policy: Policy<T>, forceFilters: seq<Modifier<T>>, t: T) {
    && (policy.visibility.Some? ==> Admits(policy.visibility.value, t))
    && (forall i :: 0 <= i < |forceFilters| ==> Admits(forceFilters[i], t))
    && (policy.trustedFilters.Some? ==>
          var own := (policy.trustedFilters.value)(NewSelect());
          own.Ok? && Holds(own.value.wheres, t))
  }

  lemma HoldsAppend<T>(a: seq<T -> bool>, b: seq<T -> bool>, t: T)
    ensures Holds(a + b, t) <==> Holds(a, t) && Holds(b, t)
  {
    forall i | 0 <= i < |b| ensures (a + b)[|a| + i] == b[i] {
    }
    if Holds(a + b, t) {
      forall i | 0 <= i < |a| ensures a[i](t) { assert (a + b)[i] == a[i]; }
      forall i | 0 <= i < |b| ensures b[i](t) { assert (a + b)[|a| + i](t); }
    }
  }

  /** What a restricting scope does to what a builder matches. */
  lemma RestrictsMatches<T(!new)>(m: Modifier<T>, s: Select<T>, t: T)
    requires Restricts(m)
    ensures Holds(m(s).wheres, t) <==> Holds(s.wheres, t) && Admits(m, t)
  {
    assert m(s) == s.(wheres := s.wheres + m(NewSelect()).wheres);
    HoldsAppend(s.wheres, m(NewSelect()).wheres, t);
  }

  lemma {:induction false} ForcedHolds<T(!new)>(filters: seq<Modifier<T>>, s: Select<T>, t: T)
    requires forall i :: 0 <= i < |filters| ==> Restricts(filters[i])
    ensures Holds(Forced(filters, s).wheres, t) <==>
      Holds(s.wheres, t) && forall i :: 0 <= i < |filters| ==> Admits(filters[i], t)
  {
    hide Restricts, Holds, Admits;
    if filters != [] {
      RestrictsMatches(filters[0], s, t);
      ForcedHolds(filters[1..], filters[0](s), t);
      assert forall i :: 1 <= i < |filters| ==> filters[i] == filters[1..][i - 1];
    }
  }

  lemma {:induction false} ForcedIs<T(!new)>(filters: seq<Modifier<T>>, s: Select<T>)
    requires forall i :: 0 <= i < |filters| ==> Restricts(filters[i])
    ensures Forced(filters, s) == s.(wheres := Forced(filters, s).wheres)
  {
    if filters != [] {
      assert Restricts(filters[0]);
      ForcedIs(filters[1..], filters[0](s));
    }
  }

  lemma VisibleMatches<T(!new)>(policy: Policy<T>, forceFilters: seq<Modifier<T>>, s: Select<T>, t: T)
    requires RestrictingPolicy(policy, forceFilters)
    ensures var visible := if policy.visibility.Some? then (policy.visibility.value)(s) else s;
            Holds(Forced(forceFilters, visible).wheres, t) <==>
              && Holds(s.wheres, t)
              && (policy.visibility.Some? ==> Admits(policy.visibility.value, t))
              && forall i :: 0 <= i < |forceFilters| ==> Admits(forceFilters[i], t)
  {
    hide Restricts, Holds, Admits;
    var visible := if policy.visibility.Some? then (policy.visibility.value)(s) else s;
    if policy.visibility.Some? {
      RestrictsMatches(policy.visibility.value, s, t);
    }
    ForcedHolds(forceFilters, visible, t);
  }

  lemma VisibleAsks<T(!new)>(policy: Policy<T>, forceFilters: seq<Modifier<T>>, s: Select<T>)
    requires RestrictingPolicy(policy, forceFilters)
    ensures var visible := if policy.visibility.Some? then (policy.visibility.value)(s) else s;
            Forced(forceFilters, visible) == s.(wheres := Forced(forceFilters, visible).wheres)
  {
    var visible := if policy.visibility.Some? then (policy.visibility.value)(s) else s;
    assert visible == s.(wheres := visible.wheres) by {
      assert policy.visibility.Some? ==> Restricts(policy.visibility.value);
    }
    hide Restricts;
    ForcedIs(forceFilters, visible);
  }

  lemma FilterAsks<T>(s: Select<T>, joins: seq<string>, filter: Option<ColumnFilter>,
                      meaning: ColumnFilter -> (T -> bool))
    requires s == NewSelect<T>().(preloads := s.preloads, wheres := s.wheres)
    ensures var filtered := FiltersApplied(s, joins, filter, meaning);
            filtered == Select(s.preloads, DefaultJoins(joins), filtered.wheres, [], 0, 0, false)
  {
    assert [] + DefaultJoins(joins) == DefaultJoins(joins);
  }

  lemma FilterMatches<T>(s: Select<T>, joins: seq<string>, filter: Option<ColumnFilter>,
                         meaning: ColumnFilter -> (T -> bool), t: T)
    ensures Holds(FiltersApplied(s, joins, filter, meaning).wheres, t) <==>
      Holds(s.wheres, t) && (filter.Some? ==> meaning(filter.value)(t))
  {
    var condition: seq<T -> bool> := if filter.Some? then [meaning(filter.value)] else [];
    HoldsAppend(s.wheres, condition, t);
    assert Holds(condition, t) <==> (filter.Some? ==> meaning(filter.value)(t)) by {
      if filter.Some? {
        assert condition[0](t) == meaning(filter.value)(t);
      }
    }
  }

  lemma TrustedMatches<T(!new)>(scope: Scope<T>, s: Select<T>, t: T)
    requires RestrictsOrFails(scope)
    ensures var own := scope(NewSelect());
            && (scope(s).Err? <==> own.Err?)
            && (own.Ok? ==>
                  && scope(s).value == s.(wheres := scope(s).value.wheres)
                  && (Holds(scope(s).value.wheres, t) <==> Holds(s.wheres, t) && Holds(own.value.wheres, t)))
  {
    var own := scope(NewSelect());
    assert scope(s) == match own case Ok(o) => Ok(s.(wheres := s.wheres + o.wheres)) case Err(e) => Err(e);
    if own.Ok? {
      HoldsAppend(s.wheres, own.value.wheres, t);
    }
  }

  /** The trusted filters do not fail. */
  predicate TrustedSucceeds<T>(policy: Policy<T>) {
    policy.trustedFilters.Some? ==> (policy.trustedFilters.value)(NewSelect()).Ok?
  }

  lemma UntrustedMatches<T(!new)>(policy: Policy<T>, forceFilters: seq<Modifier<T>>, joins: seq<string>,
                                  filter: Option<ColumnFilter>, meaning: ColumnFilter -> (T -> bool), t: T)
    requires RestrictingPolicy(policy, forceFilters)
    ensures Holds(Untrusted(policy, forceFilters, joins, filter, meaning).wheres, t) <==>
      && (policy.visibility.Some? ==> Admits(policy.visibility.value, t))
      && (forall i :: 0 <= i < |forceFilters| ==> Admits(forceFilters[i], t))
      && (filter.Some? ==> meaning(filter.value)(t))
  {
    var built := NewSelect<T>().(preloads := policy.preloads);
    assert Holds(built.wheres, t);
    hide RestrictingPolicy, Holds, Admits, Forced, FiltersApplied;
    VisibleMatches(policy, forceFilters, built, t);
    var visible := if policy.visibility.Some? then (policy.visibility.value)(built) else built;
    FilterMatches(Forced(forceFilters, visible), joins, filter, meaning, t);
  }

  lemma UntrustedAsks<T(!new)>(policy: Policy<T>, forceFilters: seq<Modifier<T>>, joins: seq<string>,
                               filter: Option<ColumnFilter>, meaning: ColumnFilter -> (T -> bool))
    requires RestrictingPolicy(policy, forceFilters)
    ensures var s := Untrusted(policy, forceFilters, joins, filter, meaning);
            s == Select(policy.preloads, DefaultJoins(joins), s.wheres, [], 0, 0, false)
  {
    hide RestrictingPolicy, Forced, FiltersApplied, DefaultJoins;
    var built := NewSelect<T>().(preloads := policy.preloads);
    VisibleAsks(policy, forceFilters, built);
    var visible := if policy.visibility.Some? then (policy.visibility.value)(built) else built;
    FilterAsks(Forced(forceFilters, visible), joins, filter, meaning);
  }

  /** With restricting parts, the scope asks for the tags' preloads and the filter's joins, unordered and
      unpaged. It fails only if the trusted filters do. */
  lemma {:induction false} ScopedAsks<T(!new)>(policy: Policy<T>, forceFilters: seq<Modifier<T>>, joins: seq<string>,
                            filter: Option<ColumnFilter>, meaning: ColumnFilter -> (T -> bool))
    requires RestrictingPolicy(policy, forceFilters)
    ensures var scoped := Scoped(policy, forceFilters, joins, filter, meaning);
            && (scoped.Ok? <==> TrustedSucceeds(policy))
            && (scoped.Ok? ==>
                  scoped.value == Select(policy.preloads, DefaultJoins(joins), scoped.value.wheres, [], 0, 0, false))
  {
    UntrustedAsks(policy, forceFilters, joins, filter, meaning);
    var public := Untrusted(policy, forceFilters, joins, filter, meaning);
    if policy.trustedFilters.Some? {
      var scope := policy.trustedFilters.value;
      hide Restricts;
      assert scope(public) ==
        match scope(NewSelect()) case Ok(o) => Ok(public.(wheres := public.wheres + o.wheres)) case Err(e) => Err(e);
    }
  }

  /** It matches what every part of it allows and the public condition holds of. */
  lemma {:induction false} ScopedMatches<T(!new)>(policy: Policy<T>, forceFilters: seq<Modifier<T>>, joins: seq<string>,
                               filter: Option<ColumnFilter>, meaning: ColumnFilter -> (T -> bool), t: T)
    requires RestrictingPolicy(policy, forceFilters)
    requires Scoped(policy, forceFilters, joins, filter, meaning).Ok?
    ensures Holds(Scoped(policy, forceFilters, joins, filter, meaning).value.wheres, t) <==>
      Allowed(policy, forceFilters, t) && (filter.Some? ==> meaning(filter.value)(t))
  {
    hide Holds, Admits, RestrictsOrFails, Restricts;
    UntrustedMatches(policy, forceFilters, joins, filter, meaning, t);
    if policy.trustedFilters.Some? {
      TrustedMatches(policy.trustedFilters.value, Untrusted(policy, forceFilters, joins, filter, meaning), t);
    }
  }

  /** `QueryPlan`, bound to one request. */
  class QueryPlan<!T(!new)> {
    const policy: Policy<T>
    const input: ListInput<T>
    const resolved: ResolvedQuery
    const meaning: ColumnFilter -> (T -> bool)

    constructor (policy: Policy<T>, input: ListInput<T>, resolved: ResolvedQuery, meaning: ColumnFilter -> (T -> bool))
      ensures this.policy == policy && this.input == input && this.resolved == resolved && this.meaning == meaning
    {
      this.policy, this.input, this.resolved, this.meaning := policy, input, resolved, meaning;
    }

    /** A fresh builder with the tag defaults and the scope. Both rows and count start here. */
    method Prepare() returns (prepared: QueryBuilderSelect<T>, error: Option<ScopeError>)
      ensures fresh(prepared)
      ensures var scoped := Scoped(policy, input.forceFilters, resolved.filterJoins, resolved.filter, meaning);
              if scoped.Ok? then error.None? && prepared.state == scoped.value else error == Some(scoped.error)
      ensures RestrictingPolicy(policy, input.forceFilters) ==>
        && (error.None? <==> TrustedSucceeds(policy))
        && (error.None? ==>
              && var s := prepared.state;
              && s == Select(policy.preloads, DefaultJoins(resolved.filterJoins), s.wheres, [], 0, 0, false)
              && forall t :: Holds(s.wheres, t) <==>
                   && Allowed(policy, input.forceFilters, t)
                   && (resolved.filter.Some? ==> meaning(resolved.filter.value)(t)))
    {
      prepared := new QueryBuilderSelect();
      ApplyPreloads(policy.preloads, prepared);
      assert [] + policy.preloads == policy.preloads;
      if policy.visibility.Some? {
        prepared.state := (policy.visibility.value)(prepared.state);
      }
      ApplyForceFilters(input.forceFilters, prepared);
      ApplyFilters(resolved, meaning, prepared);
      error := ApplyScopes([policy.trustedFilters], prepared);
      PreparedMatches();
    }

    lemma PreparedMatches()
      ensures var scoped := Scoped(policy, input.forceFilters, resolved.filterJoins, resolved.filter, meaning);
              RestrictingPolicy(policy, input.forceFilters) ==>
                && (scoped.Ok? <==> TrustedSucceeds(policy))
                && (scoped.Ok? ==>
                      && var s := scoped.value;
                      && s == Select(policy.preloads, DefaultJoins(resolved.filterJoins), s.wheres, [], 0, 0, false)
                      && forall t :: Holds(s.wheres, t) <==>
                           && Allowed(policy, input.forceFilters, t)
                           && (resolved.filter.Some? ==> meaning(resolved.filter.value)(t)))
    {
      hide Scoped, Allowed, Holds, RestrictingPolicy, TrustedSucceeds;
      if RestrictingPolicy(policy, input.forceFilters) {
        ScopedAsks(policy, input.forceFilters, resolved.filterJoins, resolved.filter, meaning);
        var scoped := Scoped(policy, input.forceFilters, resolved.filterJoins, resolved.filter, meaning);
        forall t | scoped.Ok?
          ensures Holds(scoped.value.wheres, t) <==>
            Allowed(policy, input.forceFilters, t) && (resolved.filter.Some? ==> meaning(resolved.filter.value)(t))
        {
          ScopedMatches(policy, input.forceFilters, resolved.filterJoins, resolved.filter, meaning, t);
        }
      }
    }

    method ApplyQueryModifiers(qb: QueryBuilderSelect<T>)
      modifies qb
      ensures var modified := if policy.trustedModifiers.Some? then (policy.trustedModifiers.value)(old(qb.state))
        else old(qb.state);
              qb.state == OrderApplied(modified, resolved.orderJoins, resolved.order)
    {
      ApplyModifiers([policy.trustedModifiers], qb);
      ApplyOrder(resolved, qb);
    }

    method ApplyPagination(qb: QueryBuilderSelect<T>)
      modifies qb
      ensures qb.state == Paginated(old(qb.state), input.page)
    {
      if input.page.limit > 0 {
        qb.Limit(input.page.limit);
      }
      if input.page.offset > 0 {
        qb.Offset(input.page.offset);
      }
    }
  }

  // ----- the list operation ------------------------------------------------------------------------

  datatype ListOutput<+O> = ListOutput(results: seq<O>, total: nat)

  datatype ListError = BadPage(page: PageError) | BadDirection(index: nat) | BadQuery(query: QueryError)
                     | BadScope(scope: ScopeError) | BadOutput(index: nat)

  ghost predicate ListAccepted<T>(resolver: QueryFieldResolver, sqlc: Sqlc, input: ListInput<T>)
    requires resolver.Valid()
    reads resolver
  {
    && input.page.limit >= 0 && input.page.offset >= 0 && (input.page.offset > 0 ==> input.page.limit > 0)
    && RequestAccepted(resolver.simpleFold, resolver.fields, sqlc, input.filter, input.orderBy)
  }

  /** The value of each column on what is matched. */
  function Cells<T, V>(t: T, cell: (T, string) -> V): string -> V {
    (column: string) => cell(t, column)
  }

  /** The value of each public field, given those of the columns. */
  ghost function Public<V>(f: char -> char, index: map<string, QueryField>, cells: string -> V): (row: string -> V)
    requires Unicode(f)
  {
    (name: string) => cells(if Known(f, index, name) then FieldNamed(f, index, name).value.column else "")
  }

  /** A base row with the row that each of these relations leads to, if there is one. */
  ghost function Seen<R, Q>(db: Database<R, Q>, row: R, relations: set<string>): Tuple<R, Q> {
    Tuple(row, map r | r in relations ::
      var related := db.related(r, row); if related == [] then None else Some(related[0]))
  }

  ghost function OrderRelations(f: char -> char, index: map<string, QueryField>, order: seq<OrderRequest>): set<string>
    requires Unicode(f)
  {
    set i | 0 <= i < |order| && Known(f, index, order[i].field)
      && FieldNamed(f, index, order[i].field).value.relation != "" ::
      FieldNamed(f, index, order[i].field).value.relation
  }

  /** The row, seen with the relations of the public filter, is allowed by the delete-visibility scope,
      the force filters and the trusted filters, and the public filter is true on its public fields. */
  ghost predicate Wanted<R, Q, V>(db: Database<R, Q>, f: char -> char, index: map<string, QueryField>,
                                  leaf: LeafMeaning<V>, cell: (Tuple<R, Q>, string) -> V,
                                  policy: Policy<Tuple<R, Q>>, input: ListInput<Tuple<R, Q>>, row: R)
    requires Unicode(f)
  {
    var seen := Seen(db, row, Relations(f, index, input.filter));
    && Allowed(policy, input.forceFilters, seen)
    && EvalPublic(leaf, input.filter, Public(f, index, Cells(seen, cell))) == True
  }

  /** No condition that the trusted code adds looks at the relation. */
  ghost predicate Overlooks<R(!new), Q(!new)>(policy: Policy<Tuple<R, Q>>, forceFilters: seq<Modifier<Tuple<R, Q>>>,
                                              relation: string)
  {
    && (policy.visibility.Some? ==> AllIgnore((policy.visibility.value)(NewSelect()).wheres, relation))
    && (forall i :: 0 <= i < |forceFilters| ==> AllIgnore(forceFilters[i](NewSelect()).wheres, relation))
    && (policy.trustedFilters.Some? ==>
          var own := (policy.trustedFilters.value)(NewSelect());
          own.Ok? ==> AllIgnore(own.value.wheres, relation))
  }

  ghost predicate AllIgnore<R(!new), Q(!new)>(wheres: seq<Tuple<R, Q> -> bool>, relation: string) {
    forall i :: 0 <= i < |wheres| ==> Ignores(wheres[i], relation)
  }

  /** Trusted code adds conditions only, and none that looks at a relation joined for ordering alone;
      relations lead to at most one row; the database arranges rows as it is asked to. */
  ghost predicate Plain<R(!new), Q(!new), V(!new)>(db: Database<R, Q>, table: string, f: char -> char,
        index: map<string, QueryField>, cell: (Tuple<R, Q>, string) -> V, policy: Policy<Tuple<R, Q>>,
        input: ListInput<Tuple<R, Q>>)
    requires Unicode(f)
  {
    var filterRelations := Relations(f, index, input.filter);
    var orderRelations := OrderRelations(f, index, input.orderBy);
    && IndexQualified(table, index) && LocalCells(cell) && Arranges(db)
    && (forall r :: r in filterRelations + orderRelations ==> r != table && ToOne(db, r))
    && policy.trustedModifiers.None? && RestrictingPolicy(policy, input.forceFilters)
    && forall r :: r in orderRelations - filterRelations ==> Overlooks(policy, input.forceFilters, r)
  }

  /** The wanted rows, each as often as the table has it, sorted by the keys; these see each row with all
      the relations that the request names. */
  ghost predicate Ranks<R(!new), Q(!new), V>(db: Database<R, Q>, f: char -> char, index: map<string, QueryField>,
                                             leaf: LeafMeaning<V>, cell: (Tuple<R, Q>, string) -> V,
                                             policy: Policy<Tuple<R, Q>>, input: ListInput<Tuple<R, Q>>,
                                             keys: seq<OrderKey>, ranked: seq<R>)
    requires Unicode(f)
  {
    var relations := Relations(f, index, input.filter) + OrderRelations(f, index, input.orderBy);
    && (forall row :: multiset(ranked)[row] ==
          if Wanted(db, f, index, leaf, cell, policy, input, row) then multiset(db.rows)[row] else 0)
    && forall i, j :: 0 <= i < j < |ranked| ==>
      Precedes(db, keys, Seen(db, ranked[i], relations), Seen(db, ranked[j], relations))
  }

  /** `list` with the default query and count: on success the results are the mapped rows of the row
      query and the total is the count of the shared scope; `resolved` is the resolved request. With
      trusted code that only adds conditions, `ranked` are the wanted rows in order: the total is their
      number and the results are the requested page of them. */
  method List<R(!new), Q(!new), V(!new), O>(db: Database<R, Q>, execution: nat, ghost table: string,
                                            resolver: QueryFieldResolver, sqlc: Sqlc, leaf: LeafMeaning<V>,
                                            cell: (Tuple<R, Q>, string) -> V, policy: Policy<Tuple<R, Q>>,
                                            input: ListInput<Tuple<R, Q>>, output: R -> Option<O>)
    returns (result: Result<ListOutput<O>, ListError>, resolved: ResolvedQuery?, ghost ranked: seq<R>)
    requires resolver.Valid()
    ensures result.Ok? ==> ListAccepted(resolver, sqlc, input)
    ensures ListAccepted(resolver, sqlc, input) ==>
      && resolved != null && fresh(resolved)
      && var converted := Convert(resolver.simpleFold, resolver.fields, input.filter, []);
      && converted.result.Ok?
      && resolved.filter == Condition(converted.result.value)
      && resolved.filterJoins == converted.joins
      && OrderResolved(resolver.simpleFold, resolver.fields, input.orderBy, resolved.order, resolved.filterJoins,
        resolved.orderJoins)
      && var scoped := Scoped(policy, input.forceFilters, resolved.filterJoins, resolved.filter,
                              FilterMeaning(leaf, cell));
      && (scoped.Err? ==> result == Err(BadScope(scoped.error)))
      && (scoped.Ok? ==>
            var rows := QueryRows(db, execution,
              RowsOnly(policy, scoped.value, resolved.orderJoins, resolved.order, input.page));
            && (result.Ok? <==> forall i :: 0 <= i < |rows| ==> output(rows[i]).Some?)
            && (result.Ok? ==>
                  && |result.value.results| == |rows|
                  && (forall i :: 0 <= i < |rows| ==> output(rows[i]) == Some(result.value.results[i]))
                  && result.value.total == CountRows(db, scoped.value)))
    ensures
      && ListAccepted(resolver, sqlc, input)
      && Plain(db, table, resolver.simpleFold, resolver.fields, cell, policy, input)
      && TrustedSucceeds(policy) ==>
        && resolved != null
        && Ranks(db, resolver.simpleFold, resolver.fields, leaf, cell, policy, input, resolved.order, ranked)
        && var shown := Page(ranked, input.page.limit, input.page.offset);
        && (result.Ok? <==> forall i :: 0 <= i < |shown| ==> output(shown[i]).Some?)
        && (result.Ok? ==>
              && result.value.total == |ranked| && |result.value.results| == |shown|
              && forall i :: 0 <= i < |shown| ==> output(shown[i]) == Some(result.value.results[i]))
  {
    hide Convert, RequestAccepted, OrderResolved, Matching, Scoped, Plain, RestrictingPolicy, Allowed, Ranks,
      TrustedSucceeds, Holds, FilterMeaning, QueryRows, CountRows, Page, DefaultJoins, WellFormed, Indexed, Unicode,
      Known, FieldNamed, Relations, OrderRelations, OrderApplied, Paginated;
    resolved, ranked := null, [];
    var pageError := ValidatePagination(input.page);
    if pageError.Some? {
      return Err(BadPage(pageError.value)), null, [];
    }
    var badDirection := ValidateQueryModifiers(sqlc, input.orderBy);
    if badDirection.Some? {
      AcceptedDirections(resolver, sqlc, input);
      return Err(BadDirection(badDirection.value)), null, [];
    }
    var query, queryError := Resolve(resolver, sqlc, input.filter, input.orderBy);
    if queryError.Some? {
      return Err(BadQuery(queryError.value)), null, [];
    }
    resolved := query;

    ListIsPlain(db, table, resolver, sqlc, cell, policy, input);
    var plan := new QueryPlan(policy, input, query, FilterMeaning(leaf, cell));
    var prepared, scopeError := plan.Prepare();
    if scopeError.Some? {
      return Err(BadScope(scopeError.value)), query, [];
    }
    if Plain(db, table, resolver.simpleFold, resolver.fields, cell, policy, input) {
      ranked := ListedRows(db, execution, table, resolver.simpleFold, resolver.fields, leaf, cell, policy, input,
        query.order, query.orderJoins, prepared.state);
    }
    plan.ApplyQueryModifiers(prepared);
    plan.ApplyPagination(prepared);
    var entities := QueryRows(db, execution, prepared.state);

    var counted, countError := plan.Prepare();
    var total := CountRows(db, counted.state);

    var results: seq<O> := [];
    for i := 0 to |entities|
      invariant |results| == i && forall k :: 0 <= k < i ==> output(entities[k]) == Some(results[k])
    {
      var mapped := output(entities[i]);
      if mapped.None? {
        assert output(entities[i]).None?;
        return Err(BadOutput(i)), query, ranked;
      }
      results := results + [mapped.value];
    }
    return Ok(ListOutput(results, total)), query, ranked;
  }

  lemma ListIsPlain<R(!new), Q(!new), V(!new)>(db: Database<R, Q>, table: string, resolver: QueryFieldResolver,
        sqlc: Sqlc, cell: (Tuple<R, Q>, string) -> V, policy: Policy<Tuple<R, Q>>, input: ListInput<Tuple<R, Q>>)
    requires resolver.Valid()
    ensures RequestAccepted(resolver.simpleFold, resolver.fields, sqlc, input.filter, input.orderBy) ==>
      WellFormed(resolver.simpleFold, resolver.fields, input.filter)
    ensures Plain(db, table, resolver.simpleFold, resolver.fields, cell, policy, input) ==>
      RestrictingPolicy(policy, input.forceFilters)
  {
  }

  lemma AcceptedDirections<T>(resolver: QueryFieldResolver, sqlc: Sqlc, input: ListInput<T>)
    requires resolver.Valid()
    ensures ListAccepted(resolver, sqlc, input) ==> forall i :: 0 <= i < |input.orderBy| ==>
      sqlc.direction(input.orderBy[i].direction)
  {
  }

  // ----- rows and count ----------------------------------------------------------------------------

  /** The condition does not look at what is joined for a relation. */
  ghost predicate Ignores<R(!new), Q(!new)>(condition: Tuple<R, Q> -> bool, relation: string) {
    forall t: Tuple<R, Q>, x :: condition(WithJoined(t, relation, x)) == condition(t)
  }

  /** At most one row is related to each base row. */
  ghost predicate ToOne<R, Q>(db: Database<R, Q>, relation: string) {
    forall i :: 0 <= i < |db.rows| ==> |db.related(relation, db.rows[i])| <= 1
  }

  ghost predicate FromRows<R, Q>(db: Database<R, Q>, ts: seq<Tuple<R, Q>>) {
    forall i :: 0 <= i < |ts| ==> ts[i].base in db.rows
  }

  lemma {:induction false} ExpandFromRows<R, Q>(db: Database<R, Q>, ts: seq<Tuple<R, Q>>, relation: string,
        kind: JoinKind)
    requires FromRows(db, ts)
    ensures FromRows(db, Expand(db, ts, relation, kind))
  {
    if ts != [] {
      ExpandFromRows(db, ts[1..], relation, kind);
      var first := ExpandOne(ts[0], relation, kind, db.related(relation, ts[0].base));
      assert forall i :: 0 <= i < |first| ==> first[i].base == ts[0].base;
    }
  }

  lemma {:induction false} ExpandAllFromRows<R, Q>(db: Database<R, Q>, relations: seq<string>, joins: seq<Join>)
    ensures FromRows(db, ExpandAll(db, Unjoined(db.rows), relations, joins))
    decreases |relations|
  {
    if relations != [] {
      ExpandAllFromRows(db, relations[..|relations| - 1], joins);
      var last := relations[|relations| - 1];
      ExpandFromRows(db, ExpandAll(db, Unjoined(db.rows), relations[..|relations| - 1], joins), last,
        KindOf(joins, last));
    }
  }

  /** A left join to at most one row, ignored by the conditions, changes no base row. */
  lemma {:induction false} LeftJoinKeepsBases<R(!new), Q(!new)>(db: Database<R, Q>, ts: seq<Tuple<R, Q>>,
        relation: string, wheres: seq<Tuple<R, Q> -> bool>)
    requires ToOne(db, relation) && FromRows(db, ts)
    requires forall i :: 0 <= i < |wheres| ==> Ignores(wheres[i], relation)
    ensures Bases(Filtered(wheres, Expand(db, ts, relation, LeftJoin))) == Bases(Filtered(wheres, ts))
  {
    if ts != [] {
      LeftJoinKeepsBases(db, ts[1..], relation, wheres);
      var matches := db.related(relation, ts[0].base);
      var x := if matches == [] then None else Some(matches[0]);
      var joined := WithJoined(ts[0], relation, x);
      var first := ExpandOne(ts[0], relation, LeftJoin, matches);
      assert |matches| <= 1 by {
        var i :| 0 <= i < |db.rows| && db.rows[i] == ts[0].base;
      }
      assert first == [joined];
      assert Expand(db, ts, relation, LeftJoin) == [joined] + Expand(db, ts[1..], relation, LeftJoin);
      assert ([joined] + Expand(db, ts[1..], relation, LeftJoin))[1..] == Expand(db, ts[1..], relation, LeftJoin);
      assert Holds(wheres, joined) == Holds(wheres, ts[0]);
      var own: seq<Tuple<R, Q>> := if Holds(wheres, ts[0]) then [ts[0]] else [];
      var ownJoined: seq<Tuple<R, Q>> := if Holds(wheres, ts[0]) then [joined] else [];
      BasesAppend(own, Filtered(wheres, ts[1..]));
      BasesAppend(ownJoined, Filtered(wheres, Expand(db, ts[1..], relation, LeftJoin)));
      assert Bases(own) == Bases(ownJoined);
    }
  }

  lemma BasesAppend<R, Q>(a: seq<Tuple<R, Q>>, b: seq<Tuple<R, Q>>)
    ensures Bases(a + b) == Bases(a) + Bases(b)
  {
  }

  lemma {:induction false} KindOfDefault(joins: seq<Join>, relation: string, added: string)
    ensures KindOf(joins + [Join(added, LeftJoin, false)], relation) == KindOf(joins, relation)
    ensures relation !in Joined(joins) ==> KindOf(joins, relation) == LeftJoin
    decreases |joins|
  {
    if joins != [] {
      assert (joins + [Join(added, LeftJoin, false)])[1..] == joins[1..] + [Join(added, LeftJoin, false)];
      KindOfDefault(joins[1..], relation, added);
      JoinedHas(joins, relation);
      JoinedHas(joins[1..], relation);
      assert forall j :: j in joins[1..] ==> j in joins;
      assert joins[0] in joins;
    }
  }

  lemma {:induction false} JoinedHas(joins: seq<Join>, relation: string)
    ensures relation in Joined(joins) <==> exists j :: j in joins && j.relation == relation
    decreases |joins|
  {
    if joins != [] {
      JoinedHas(joins[..|joins| - 1], relation);
      assert joins == joins[..|joins| - 1] + [joins[|joins| - 1]];
    }
  }

  lemma {:induction false} ExpandAllKinds<R, Q>(db: Database<R, Q>, ts: seq<Tuple<R, Q>>, relations: seq<string>,
        a: seq<Join>, b: seq<Join>)
    requires forall r :: KindOf(a, r) == KindOf(b, r)
    ensures ExpandAll(db, ts, relations, a) == ExpandAll(db, ts, relations, b)
    decreases |relations|
  {
    if relations != [] {
      ExpandAllKinds(db, ts, relations[..|relations| - 1], a, b);
    }
  }

  /** Order-only joins do not change which base rows match, nor how often or in which sequence. */
  lemma {:induction false} OrderJoinsKeepBases<R(!new), Q(!new)>(db: Database<R, Q>, s: Select<Tuple<R, Q>>,
        relations: seq<string>)
    requires forall r :: r in relations && r !in Joined(s.joins) ==>
      ToOne(db, r) && forall i :: 0 <= i < |s.wheres| ==> Ignores(s.wheres[i], r)
    ensures Bases(Matching(db, s.(joins := s.joins + DefaultJoins(relations)))) == Bases(Matching(db, s))
    decreases |relations|
  {
    if relations == [] {
      assert s.joins + DefaultJoins([]) == s.joins;
    } else {
      var init, last := relations[..|relations| - 1], relations[|relations| - 1];
      OrderJoinsKeepBases(db, s, init);
      var before := s.joins + DefaultJoins(init);
      var after := s.joins + DefaultJoins(relations);
      assert after == before + [Join(last, LeftJoin, false)];
      assert after[..|after| - 1] == before;
      forall r ensures KindOf(after, r) == KindOf(before, r) {
        KindOfDefault(before, r, last);
      }
      var ts := Unjoined(db.rows);
      ExpandAllKinds(db, ts, Joined(before), after, before);
      if last !in Joined(before) {
        JoinedHas(before, last);
        JoinedHas(s.joins, last);
        KindOfDefault(before, last, last);
        var expanded := ExpandAll(db, ts, Joined(before), before);
        var all := Joined(before) + [last];
        assert all[..|all| - 1] == Joined(before);
        assert ExpandAll(db, ts, all, after) == Expand(db, expanded, last, LeftJoin);
        ExpandAllFromRows(db, Joined(before), before);
        LeftJoinKeepsBases(db, expanded, last, s.wheres);
      }
    }
  }

  // ----- the public filter looks only at joined relations ------------------------------------------

  /** How the value of a qualified column is found in a tuple: it depends on what is joined for a
      relation only if the column is qualified by that relation. */
  ghost predicate LocalCells<R(!new), Q(!new), V(!new)>(cell: (Tuple<R, Q>, string) -> V) {
    forall t: Tuple<R, Q>, relation, x, column ::
      !(relation + "." <= column) ==> cell(WithJoined(t, relation, x), column) == cell(t, column)
  }

  /** The condition SQL evaluates for a column filter: rows on which it is true are kept. */
  function FilterMeaning<R, Q, V>(leaf: LeafMeaning<V>, cell: (Tuple<R, Q>, string) -> V):
    ColumnFilter -> (Tuple<R, Q> -> bool)
  {
    (filter: ColumnFilter) => (t: Tuple<R, Q>) => EvalColumns(leaf, filter, Cells(t, cell)) == True
  }

  lemma {:induction false} EvalSame<V(!new)>(leaf: LeafMeaning<V>, filter: ColumnFilter, a: string -> V, b: string -> V)
    requires forall c :: c in LeafColumns(filter) ==> a(c) == b(c)
    ensures EvalColumns(leaf, filter, a) == EvalColumns(leaf, filter, b)
    decreases filter, 1
  {
    if !filter.kind.Leaf? && !filter.kind.NoKind? {
      EvalAllSame(leaf, filter.fields, a, b);
    }
  }

  lemma {:induction false} EvalAllSame<V(!new)>(leaf: LeafMeaning<V>, filters: seq<ColumnFilter>, a: string -> V,
        b: string -> V)
    requires forall i, c :: 0 <= i < |filters| && c in LeafColumns(filters[i]) ==> a(c) == b(c)
    ensures EvalColumnsAll(leaf, filters, a) == EvalColumnsAll(leaf, filters, b)
    decreases filters, 0
  {
    if filters != [] {
      EvalAllSame(leaf, filters[..|filters| - 1], a, b);
      EvalSame(leaf, filters[|filters| - 1], a, b);
    }
  }

  /** A dot-free qualifier is read off a qualified column in only one way. */
  lemma QualifierUnique(a: string, b: string, column: string)
    requires IsIdentifier(a) && '.' !in b && b + "." <= a + "." + column
    ensures a == b
  {
    var whole := a + "." + column;
    assert whole == b + "." + whole[|b| + 1..];
    SplitPrefix(a, column, '.');
    SplitPrefix(b, whole[|b| + 1..], '.');
    assert Split(whole, '.')[0] == a && Split(whole, '.')[0] == b;
  }

  /** A well-scoped filter ignores every relation outside its joins. */
  lemma ScopedFilterIgnores<R(!new), Q(!new), V(!new)>(table: string, leaf: LeafMeaning<V>,
        cell: (Tuple<R, Q>, string) -> V, filter: ColumnFilter, joins: seq<string>, relation: string)
    requires LocalCells(cell) && relation !in joins && relation != table && relation != "" && '.' !in relation
    requires forall c :: c in LeafColumns(filter) ==> InScope(table, joins, c)
    ensures Ignores(FilterMeaning(leaf, cell)(filter), relation)
  {
    forall t: Tuple<R, Q>, x
      ensures FilterMeaning(leaf, cell)(filter)(WithJoined(t, relation, x)) == FilterMeaning(leaf, cell)(filter)(t)
    {
      var joined := WithJoined(t, relation, x);
      forall c | c in LeafColumns(filter) ensures cell(joined, c) == cell(t, c) {
        var q: QueryField :| Qualified(table, q) && q.column == c && (q.relation == "" || q.relation in joins);
        var qualifier := if q.relation == "" then table else q.relation;
        var column :| IsIdentifier(column) && IsIdentifier(qualifier) && q.column == qualifier + "." + column;
        if relation + "." <= c {
          QualifierUnique(qualifier, relation, column);
        }
      }
      EvalSame(leaf, filter, Cells(joined, cell), Cells(t, cell));
    }
  }

  /** The converted public filter of a request ignores the joins that only its ordering needs. */
  lemma FilterIgnoresOrderJoins<R(!new), Q(!new), V(!new)>(table: string, f: char -> char,
        index: map<string, QueryField>, filter: Filter, order: seq<OrderRequest>, keys: seq<OrderKey>,
        orderJoins: seq<string>, leaf: LeafMeaning<V>, cell: (Tuple<R, Q>, string) -> V, relation: string)
    requires Unicode(f) && IndexQualified(table, index) && WellFormed(f, index, filter) && LocalCells(cell)
    requires OrderResolved(f, index, order, keys, Convert(f, index, filter, []).joins, orderJoins)
    requires relation in orderJoins && relation != table
    ensures Convert(f, index, filter, []).result.Ok?
    ensures Ignores(FilterMeaning(leaf, cell)(Convert(f, index, filter, []).result.value), relation)
  {
    hide Convert, WellFormed, LocalCells, Ignores, FilterMeaning, InScope, Fold, LeafColumns;
    QueriesAreScoped(table, f, index, filter, order, keys, orderJoins);
    var i :| 0 <= i < |order| && Known(f, index, order[i].field)
      && FieldNamed(f, index, order[i].field).value.relation == relation;
    assert Qualified(table, FieldNamed(f, index, order[i].field).value);
    ScopedFilterIgnores(table, leaf, cell, Convert(f, index, filter, []).result.value,
      Convert(f, index, filter, []).joins, relation);
  }

  // ----- each matching row once ----------------------------------------------------------------------

  /** A base row seen with the one row that each relation joins to it; None if an inner join drops it. */
  function View<R, Q>(db: Database<R, Q>, row: R, relations: seq<string>, joins: seq<Join>): Option<Tuple<R, Q>> {
    if relations == [] then Some(Tuple(row, map[]))
    else
      var init, last := relations[..|relations| - 1], relations[|relations| - 1];
      var seen := View(db, row, init, joins);
      var related := db.related(last, row);
      if seen.None? then None
      else if related != [] then Some(WithJoined(seen.value, last, Some(related[0])))
      else if KindOf(joins, last) == LeftJoin then Some(WithJoined(seen.value, last, None))
      else None
  }

  predicate RowMatches<R, Q>(db: Database<R, Q>, s: Select<Tuple<R, Q>>, row: R) {
    var seen := View(db, row, Joined(s.joins), s.joins);
    seen.Some? && Holds(s.wheres, seen.value)
  }

  /** The rows that match, each one once, in the sequence of the table. */
  function MatchingRows<R, Q>(db: Database<R, Q>, s: Select<Tuple<R, Q>>, rows: seq<R>): seq<R> {
    if rows == [] then []
    else (if RowMatches(db, s, rows[0]) then [rows[0]] else []) + MatchingRows(db, s, rows[1..])
  }

  function Views<R, Q>(db: Database<R, Q>, rows: seq<R>, relations: seq<string>, joins: seq<Join>): seq<Tuple<R, Q>> {
    if rows == [] then []
    else
      var seen := View(db, rows[0], relations, joins);
      (if seen.Some? then [seen.value] else []) + Views(db, rows[1..], relations, joins)
  }

  ghost predicate AtMostOne<R, Q>(db: Database<R, Q>, rows: seq<R>, relation: string) {
    forall i :: 0 <= i < |rows| ==> |db.related(relation, rows[i])| <= 1
  }

  lemma {:induction false} ViewBase<R, Q>(db: Database<R, Q>, row: R, relations: seq<string>, joins: seq<Join>)
    ensures var seen := View(db, row, relations, joins); seen.Some? ==> seen.value.base == row
    decreases |relations|
  {
    if relations != [] {
      ViewBase(db, row, relations[..|relations| - 1], joins);
    }
  }

  lemma {:induction false} ExpandViews<R, Q>(db: Database<R, Q>, rows: seq<R>, relations: seq<string>, joins: seq<Join>)
    requires relations != [] && AtMostOne(db, rows, relations[|relations| - 1])
    ensures var last := relations[|relations| - 1];
            Expand(db, Views(db, rows, relations[..|relations| - 1], joins), last, KindOf(joins, last)) ==
              Views(db, rows, relations, joins)
    decreases |rows|
  {
    if rows != [] {
      var init, last := relations[..|relations| - 1], relations[|relations| - 1];
      ExpandViews(db, rows[1..], relations, joins);
      ViewBase(db, rows[0], init, joins);
      var seen := View(db, rows[0], init, joins);
      var rest := Views(db, rows[1..], init, joins);
      if seen.Some? {
        assert ([seen.value] + rest)[1..] == rest;
        var joined := ExpandOne(seen.value, last, KindOf(joins, last), db.related(last, rows[0]));
        var after := View(db, rows[0], relations, joins);
        assert joined == if after.Some? then [after.value] else [];
      } else {
        assert [] + rest == rest;
      }
    }
  }

  lemma {:induction false} ViewsOfNothing<R, Q>(db: Database<R, Q>, rows: seq<R>, joins: seq<Join>)
    ensures Views(db, rows, [], joins) == Unjoined(rows)
    decreases |rows|
  {
    if rows != [] {
      ViewsOfNothing(db, rows[1..], joins);
      assert Unjoined<R, Q>(rows) == [Tuple(rows[0], map[])] + Unjoined(rows[1..]);
    }
  }

  lemma {:induction false} ExpandAllIsViews<R, Q>(db: Database<R, Q>, relations: seq<string>, joins: seq<Join>)
    requires forall r :: r in relations ==> ToOne(db, r)
    ensures ExpandAll(db, Unjoined(db.rows), relations, joins) == Views(db, db.rows, relations, joins)
    decreases |relations|
  {
    if relations == [] {
      ViewsOfNothing(db, db.rows, joins);
    } else {
      ExpandAllIsViews(db, relations[..|relations| - 1], joins);
      assert ToOne(db, relations[|relations| - 1]);
      ExpandViews(db, db.rows, relations, joins);
    }
  }

  lemma {:induction false} FilteredViews<R, Q>(db: Database<R, Q>, s: Select<Tuple<R, Q>>, rows: seq<R>)
    ensures Bases(Filtered(s.wheres, Views(db, rows, Joined(s.joins), s.joins))) == MatchingRows(db, s, rows)
    decreases |rows|
  {
    if rows != [] {
      FilteredViews(db, s, rows[1..]);
      ViewBase(db, rows[0], Joined(s.joins), s.joins);
      var seen := View(db, rows[0], Joined(s.joins), s.joins);
      var rest := Views(db, rows[1..], Joined(s.joins), s.joins);
      var own: seq<Tuple<R, Q>> := if seen.Some? then [seen.value] else [];
      assert seen.Some? ==> (own + rest)[1..] == rest;
      assert seen.None? ==> own + rest == rest;
      var kept: seq<Tuple<R, Q>> := if RowMatches(db, s, rows[0]) then own else [];
      assert Filtered(s.wheres, own + rest) == kept + Filtered(s.wheres, rest);
      BasesAppend(kept, Filtered(s.wheres, rest));
    }
  }

  /** Joined to at most one row by every relation, each base row matches at most once. */
  lemma MatchingIsSelection<R, Q>(db: Database<R, Q>, s: Select<Tuple<R, Q>>)
    requires forall r :: r in Joined(s.joins) ==> ToOne(db, r)
    ensures Bases(Matching(db, s)) == MatchingRows(db, s, db.rows)
  {
    hide ToOne, Views, Joined, Bases, Filtered, ExpandAll, MatchingRows;
    ExpandAllIsViews(db, Joined(s.joins), s.joins);
    FilteredViews(db, s, db.rows);
  }

  // ----- what a list shows ---------------------------------------------------------------------------

  predicate AllDefault(joins: seq<Join>) {
    forall i :: 0 <= i < |joins| ==> !joins[i].explicit
  }

  lemma {:induction false} DefaultKind(joins: seq<Join>, relation: string)
    requires AllDefault(joins)
    ensures KindOf(joins, relation) == LeftJoin
    decreases |joins|
  {
    if joins != [] {
      DefaultKind(joins[1..], relation);
    }
  }

  /** Default joins drop no row: it is seen with what each relation leads to. */
  lemma {:induction false} DefaultView<R, Q>(db: Database<R, Q>, row: R, relations: seq<string>, joins: seq<Join>)
    requires AllDefault(joins)
    ensures View(db, row, relations, joins) == Some(Seen(db, row, set r | r in relations))
    decreases |relations|
  {
    if relations == [] {
      assert Seen(db, row, set r | r in relations) == Tuple(row, map[]);
    } else {
      var init, last := relations[..|relations| - 1], relations[|relations| - 1];
      DefaultView(db, row, init, joins);
      DefaultKind(joins, last);
      assert (set r | r in relations) == (set r | r in init) + {last} by {
        assert relations == init + [last];
      }
      var before, related := Seen(db, row, set r | r in init), db.related(last, row);
      assert Seen(db, row, set r | r in relations) ==
        WithJoined(before, last, if related == [] then None else Some(related[0]));
    }
  }

  lemma JoinedDefaults(relations: seq<string>)
    ensures forall r :: r in Joined(DefaultJoins(relations)) <==> r in relations
    ensures (set r | r in Joined(DefaultJoins(relations))) == set r | r in relations
    ensures AllDefault(DefaultJoins(relations))
  {
    var joins := DefaultJoins(relations);
    forall r ensures r in Joined(joins) <==> r in relations {
      JoinedHas(joins, r);
      if r in relations {
        var i :| 0 <= i < |relations| && relations[i] == r;
        assert joins[i] in joins;
      }
    }
  }

  lemma {:induction false} DefaultRowMatches<R, Q>(db: Database<R, Q>, s: Select<Tuple<R, Q>>, relations: seq<string>,
        row: R)
    requires s.joins == DefaultJoins(relations)
    ensures RowMatches(db, s, row) <==> Holds(s.wheres, Seen(db, row, set r | r in relations))
  {
    hide Seen, View, Holds, DefaultJoins, Joined, AllDefault;
    JoinedDefaults(relations);
    DefaultView(db, row, Joined(s.joins), s.joins);
  }

  lemma {:induction false} SelectionCounts<R, Q>(db: Database<R, Q>, s: Select<Tuple<R, Q>>, rows: seq<R>, row: R)
    ensures multiset(MatchingRows(db, s, rows))[row] == if RowMatches(db, s, row) then multiset(rows)[row] else 0
    decreases |rows|
  {
    hide RowMatches;
    if rows != [] {
      SelectionCounts(db, s, rows[1..], row);
      var own := if RowMatches(db, s, rows[0]) then [rows[0]] else [];
      assert rows == [rows[0]] + rows[1..];
      assert MatchingRows(db, s, rows) == own + MatchingRows(db, s, rows[1..]);
    }
  }

  lemma {:induction false} ViewsAreSeen<R, Q>(db: Database<R, Q>, rows: seq<R>, relations: seq<string>,
                                              joins: seq<Join>, t: Tuple<R, Q>)
    requires AllDefault(joins) && t in Views(db, rows, relations, joins)
    ensures t == Seen(db, t.base, set r | r in relations)
    decreases |rows|
  {
    hide Seen, View, AllDefault;
    DefaultView(db, rows[0], relations, joins);
    SeenBase(db, rows[0], set r | r in relations);
    if t != View(db, rows[0], relations, joins).value {
      ViewsAreSeen(db, rows[1..], relations, joins, t);
    }
  }

  lemma SeenBase<R, Q>(db: Database<R, Q>, row: R, relations: set<string>)
    ensures Seen(db, row, relations).base == row
  {
  }

  lemma {:induction false} FilteredMember<T>(wheres: seq<T -> bool>, ts: seq<T>, t: T)
    requires t in Filtered(wheres, ts)
    ensures t in ts
    decreases |ts|
  {
    hide Holds;
    if ts != [] && !(t == ts[0]) {
      FilteredMember(wheres, ts[1..], t);
    }
  }

  /** Under default joins to at most one row, what matches is a base row seen with its related rows. */
  lemma {:induction false} MatchingIsSeen<R, Q>(db: Database<R, Q>, s: Select<Tuple<R, Q>>, relations: seq<string>,
        t: Tuple<R, Q>)
    requires s.joins == DefaultJoins(relations) && forall r :: r in relations ==> ToOne(db, r)
    requires t in Matching(db, s)
    ensures t == Seen(db, t.base, set r | r in relations)
  {
    hide ToOne, Views, Filtered, ExpandAll, Seen, DefaultJoins, Joined, AllDefault;
    JoinedDefaults(relations);
    ExpandAllIsViews(db, Joined(s.joins), s.joins);
    FilteredMember(s.wheres, Views(db, db.rows, Joined(s.joins), s.joins), t);
    ViewsAreSeen(db, db.rows, Joined(s.joins), s.joins, t);
  }

  // ----- arrangements ------------------------------------------------------------------------------

  /** The first row may come before the second under an ORDER BY: at most it by the first key, and if
      that does not tell them apart, by the later ones. */
  predicate Precedes<R, Q>(db: Database<R, Q>, order: seq<OrderKey>, a: Tuple<R, Q>, b: Tuple<R, Q>) {
    order == [] || (db.atMost(order[0], a, b) && (db.atMost(order[0], b, a) ==> Precedes(db, order[1..], a, b)))
  }

  ghost predicate SortedBy<R, Q>(db: Database<R, Q>, order: seq<OrderKey>, ts: seq<Tuple<R, Q>>) {
    forall i, j :: 0 <= i < j < |ts| ==> Precedes(db, order, ts[i], ts[j])
  }

  /** Each key compares any two rows, transitively. */
  ghost predicate Compares<R(!new), Q(!new)>(db: Database<R, Q>) {
    && (forall key, a, b :: db.atMost(key, a, b) || db.atMost(key, b, a))
    && (forall key, a, b, c :: db.atMost(key, a, b) && db.atMost(key, b, c) ==> db.atMost(key, a, c))
  }

  /** Every execution returns the rows of the result, sorted by the ORDER BY, and no more is known. */
  ghost predicate Arranges<R(!new), Q(!new)>(db: Database<R, Q>) {
    forall execution, order, ts ::
      && multiset(db.arrange(execution, order, ts)) == multiset(ts)
      && SortedBy(db, order, db.arrange(execution, order, ts))
  }

  lemma {:induction false} PrecedesTotal<R(!new), Q(!new)>(db: Database<R, Q>, order: seq<OrderKey>, a: Tuple<R, Q>,
        b: Tuple<R, Q>)
    requires Compares(db)
    ensures Precedes(db, order, a, b) || Precedes(db, order, b, a)
    decreases order
  {
    if order != [] {
      PrecedesTotal(db, order[1..], a, b);
    }
  }

  lemma {:induction false} PrecedesTransitive<R(!new), Q(!new)>(db: Database<R, Q>, order: seq<OrderKey>,
                                                                a: Tuple<R, Q>, b: Tuple<R, Q>, c: Tuple<R, Q>)
    requires Compares(db) && Precedes(db, order, a, b) && Precedes(db, order, b, c)
    ensures Precedes(db, order, a, c)
    decreases order
  {
    if order != [] {
      var key := order[0];
      assert db.atMost(key, a, c);
      if db.atMost(key, c, a) {
        assert db.atMost(key, b, a) && db.atMost(key, c, b);
        PrecedesTransitive(db, order[1..], a, b, c);
      }
    }
  }

  lemma TakeOut<T>(s: seq<T>, i: nat)
    requires i < |s|
    ensures multiset(s) == multiset(s[..i] + s[i + 1..]) + multiset{s[i]}
  {
    assert s == s[..i] + [s[i]] + s[i + 1..];
  }

  lemma TakeOutBoth<T>(a: seq<T>, b: seq<T>, i: nat)
    requires a != [] && i < |b| && a[0] == b[i]
    ensures multiset(a) == multiset(b) <==> multiset(a[1..]) == multiset(b[..i] + b[i + 1..])
  {
    TakeOut(a, 0);
    TakeOut(b, i);
    assert a[..0] + a[1..] == a[1..];
    var x, y := multiset(a[1..]), multiset(b[..i] + b[i + 1..]);
    assert multiset(a) - multiset{a[0]} == x && multiset(b) - multiset{a[0]} == y;
  }

  /** The elements that satisfy a predicate, in order. */
  function Kept<T>(p: T -> bool, ts: seq<T>): seq<T> {
    if ts == [] then [] else (if p(ts[0]) then [ts[0]] else []) + Kept(p, ts[1..])
  }

  lemma CountTogether<T>(a: seq<T>, own: seq<T>, b: seq<T>)
    ensures multiset(a + (own + b)) == multiset(a + b) + multiset(own)
  {
  }

  lemma KeptSplits<T>(p: T -> bool, ts: seq<T>, i: nat) returns (own: seq<T>)
    requires i < |ts|
    ensures own == if p(ts[i]) then [ts[i]] else []
    ensures Kept(p, ts) == Kept(p, ts[..i]) + (own + Kept(p, ts[i + 1..]))
  {
    own := if p(ts[i]) then [ts[i]] else [];
    KeptAppend(p, ts[..i], ts[i..]);
    assert ts[..i] + ts[i..] == ts && ts[i..][1..] == ts[i + 1..] && ts[i..][0] == ts[i];
  }

  lemma KeptTakeOut<T>(p: T -> bool, ts: seq<T>, i: nat)
    requires i < |ts|
    ensures multiset(Kept(p, ts)) ==
      multiset(Kept(p, ts[..i] + ts[i + 1..])) + (if p(ts[i]) then multiset{ts[i]} else multiset{})
  {
    hide Kept;
    var own := KeptSplits(p, ts, i);
    KeptAppend(p, ts[..i], ts[i + 1..]);
    CountTogether(Kept(p, ts[..i]), own, Kept(p, ts[i + 1..]));
  }

  /** What is kept of a list depends only on how often each element occurs in it. */
  lemma {:induction false} KeptPermuted<T>(p: T -> bool, a: seq<T>, b: seq<T>)
    requires multiset(a) == multiset(b)
    ensures multiset(Kept(p, a)) == multiset(Kept(p, b))
    decreases |a|
  {
    hide Kept;
    if a == [] {
      assert |multiset(b)| == |b|;
    } else {
      assert a[0] in multiset(b);
      var i :| 0 <= i < |b| && b[i] == a[0];
      TakeOutBoth(a, b, i);
      KeptTakeOut(p, a, 0);
      KeptTakeOut(p, b, i);
      assert a[..0] + a[1..] == a[1..];
      KeptPermuted(p, a[1..], b[..i] + b[i + 1..]);
    }
  }

  lemma {:induction false} KeptAppend<T>(p: T -> bool, a: seq<T>, b: seq<T>)
    ensures Kept(p, a + b) == Kept(p, a) + Kept(p, b)
  {
    if a == [] {
      assert a + b == b;
    } else {
      assert (a + b)[1..] == a[1..] + b && (a + b)[0] == a[0];
      KeptAppend(p, a[1..], b);
      var own := if p(a[0]) then [a[0]] else [];
      assert Kept(p, a + b) == own + (Kept(p, a[1..]) + Kept(p, b));
      assert own + (Kept(p, a[1..]) + Kept(p, b)) == (own + Kept(p, a[1..])) + Kept(p, b);
    }
  }

  lemma {:induction false} KeptNone<T>(p: T -> bool, ts: seq<T>)
    requires forall i :: 0 <= i < |ts| ==> !p(ts[i])
    ensures Kept(p, ts) == []
  {
    if ts != [] {
      KeptNone(p, ts[1..]);
    }
  }

  /** What is kept of a list that satisfies the predicate up to some point only is a prefix. */
  lemma {:induction false} KeptIsPrefix<T>(p: T -> bool, ts: seq<T>)
    requires forall i, j :: 0 <= i < j < |ts| && p(ts[j]) ==> p(ts[i])
    ensures |Kept(p, ts)| <= |ts| && Kept(p, ts) == ts[..|Kept(p, ts)|]
    ensures forall i :: 0 <= i < |ts| ==> (p(ts[i]) <==> i < |Kept(p, ts)|)
  {
    if ts != [] {
      KeptIsPrefix(p, ts[1..]);
      if !p(ts[0]) {
        forall i | 0 <= i < |ts| ensures !p(ts[i]) {}
        KeptNone(p, ts);
      }
    }
  }

  /** Two arrangements that both put first what satisfies the predicate have the same elements there. */
  lemma SamePrefix<T>(p: T -> bool, s: seq<T>, t: seq<T>, end: nat)
    requires multiset(s) == multiset(t) && 0 < end < |s| == |t| && p(s[end - 1]) && !p(s[end])
    requires forall i, j :: 0 <= i < j < |s| && p(s[j]) ==> p(s[i])
    requires forall i, j :: 0 <= i < j < |t| && p(t[j]) ==> p(t[i])
    ensures multiset(s[..end]) == multiset(t[..end])
  {
    hide Kept;
    KeptIsPrefix(p, s);
    KeptIsPrefix(p, t);
    KeptPermuted(p, s, t);
    assert |Kept(p, s)| == |multiset(Kept(p, s))| == |multiset(Kept(p, t))| == |Kept(p, t)|;
    assert |Kept(p, s)| == end;
  }

  function UpTo<T>(ts: seq<T>, end: nat): seq<T> {
    if end <= |ts| then ts[..end] else ts
  }

  /** A page that ends here ends between rows that the ORDER BY tells apart. */
  ghost predicate Decided<R, Q>(db: Database<R, Q>, order: seq<OrderKey>, ts: seq<Tuple<R, Q>>, end: nat) {
    0 < end < |ts| ==> !Precedes(db, order, ts[end], ts[end - 1])
  }

  /** Then every arrangement has the same rows before that end. */
  lemma DecidedPrefix<R(!new), Q(!new)>(db: Database<R, Q>, order: seq<OrderKey>, s: seq<Tuple<R, Q>>,
                                        t: seq<Tuple<R, Q>>, end: nat)
    requires Compares(db) && SortedBy(db, order, s) && SortedBy(db, order, t) && multiset(s) == multiset(t)
    requires Decided(db, order, s, end)
    ensures multiset(UpTo(s, end)) == multiset(UpTo(t, end))
  {
    assert |s| == |multiset(s)| == |multiset(t)| == |t|;
    hide Compares, Precedes, Kept;
    if 0 < end < |s| {
      var last := s[end - 1];
      var p := (x: Tuple<R, Q>) => Precedes(db, order, x, last);
      DownwardClosed(db, order, s, last);
      DownwardClosed(db, order, t, last);
      PrecedesTotal(db, order, last, last);
      assert p(s[end - 1]) && !p(s[end]);
      SamePrefix(p, s, t, end);
    } else if end >= |s| {
      assert s[..|s|] == s && t[..|t|] == t;
    }
  }

  lemma DownwardClosed<R(!new), Q(!new)>(db: Database<R, Q>, order: seq<OrderKey>, ts: seq<Tuple<R, Q>>,
                                         last: Tuple<R, Q>)
    requires Compares(db) && SortedBy(db, order, ts)
    ensures forall i, j :: 0 <= i < j < |ts| && Precedes(db, order, ts[j], last) ==> Precedes(db, order, ts[i], last)
  {
    hide Compares, Precedes;
    forall i, j | 0 <= i < j < |ts| && Precedes(db, order, ts[j], last) ensures Precedes(db, order, ts[i], last) {
      PrecedesTransitive(db, order, ts[i], ts[j], last);
    }
  }

  // ----- pages -------------------------------------------------------------------------------------

  /** Where page `n` starts. */
  function PageStart(n: nat, limit: nat): nat {
    n * limit
  }

  lemma NextPage<T>(ts: seq<T>, limit: nat, start: nat)
    requires limit > 0
    ensures UpTo(ts, start) + Page(ts, limit, start) == UpTo(ts, start + limit)
  {
  }

  lemma {:induction false} BasesPermuted<R, Q>(a: seq<Tuple<R, Q>>, b: seq<Tuple<R, Q>>)
    requires multiset(a) == multiset(b)
    ensures multiset(Bases(a)) == multiset(Bases(b))
    decreases |a|
  {
    if a == [] {
      assert |multiset(b)| == |b|;
    } else {
      assert a[0] in multiset(b);
      var i :| 0 <= i < |b| && b[i] == a[0];
      TakeOutBoth(a, b, i);
      BasesPermuted(a[1..], b[..i] + b[i + 1..]);
      assert Bases(a)[1..] == Bases(a[1..]);
      assert Bases(b)[..i] + Bases(b)[i + 1..] == Bases(b[..i] + b[i + 1..]);
      TakeOutBoth(Bases(a), Bases(b), i);
    }
  }

  /** What a request for page `k` returns, in the database's k-th execution. */
  function RequestedPage<R, Q>(db: Database<R, Q>, policy: Policy<Tuple<R, Q>>, scoped: Select<Tuple<R, Q>>,
                               orderJoins: seq<string>, order: seq<OrderKey>, limit: nat, k: nat): seq<R>
  {
    QueryRows(db, k, RowsOnly(policy, scoped, orderJoins, order, ListPage(limit, PageStart(k, limit))))
  }

  /** What the requests for the `n` first pages return, together. */
  function PagedRows<R, Q>(db: Database<R, Q>, policy: Policy<Tuple<R, Q>>, scoped: Select<Tuple<R, Q>>,
                           orderJoins: seq<string>, order: seq<OrderKey>, limit: nat, n: nat): seq<R>
  {
    if n == 0 then []
    else
      PagedRows(db, policy, scoped, orderJoins, order, limit, n - 1) +
      RequestedPage(db, policy, scoped, orderJoins, order, limit, n - 1)
  }

  lemma BasesEmpty<R, Q>()
    ensures Bases<R, Q>([]) == []
  {
  }

  lemma BasesLength<R, Q>(ts: seq<Tuple<R, Q>>)
    ensures |Bases(ts)| == |ts|
  {
  }

  lemma MatchingIgnoresPage<R, Q>(db: Database<R, Q>, a: Select<Tuple<R, Q>>, b: Select<Tuple<R, Q>>)
    requires a.joins == b.joins && a.wheres == b.wheres
    ensures Matching(db, a) == Matching(db, b)
  {
  }

  /** The rows that the pages of a request are cut from. */
  function Ordered<R, Q>(db: Database<R, Q>, scoped: Select<Tuple<R, Q>>, orderJoins: seq<string>,
                         order: seq<OrderKey>): seq<Tuple<R, Q>>
  {
    Matching(db, OrderApplied(scoped, orderJoins, order))
  }

  /** An accepted page of a query without a page of its own returns as many rows as there are from the
      offset on, but at most the limit, and these are the database's rows from the offset on. */
  lemma PageOfRequest<R(!new), Q(!new)>(db: Database<R, Q>, execution: nat, s: Select<Tuple<R, Q>>, page: ListPage)
    requires Arranges(db) && s.limit == s.offset == 0 && ValidatePagination(page).None?
    ensures var rows := QueryRows(db, execution, Paginated(s, page));
            var all := Bases(db.arrange(execution, s.order, Matching(db, s)));
            && |all| == CountRows(db, s)
            && |rows| == (if page.offset >= |all| then 0
                          else if page.limit == 0 || page.limit >= |all| - page.offset then |all| - page.offset
                          else page.limit)
            && forall i :: 0 <= i < |rows| ==> rows[i] == all[page.offset + i]
  {
    hide Matching;
    var arranged := db.arrange(execution, s.order, Matching(db, s));
    MatchingIgnoresPage(db, s, Paginated(s, page));
    assert |arranged| == |multiset(arranged)| == |multiset(Matching(db, s))| == |Matching(db, s)|;
  }

  lemma OnePage<R, Q>(db: Database<R, Q>, policy: Policy<Tuple<R, Q>>, scoped: Select<Tuple<R, Q>>,
                      orderJoins: seq<string>, order: seq<OrderKey>, limit: nat, k: nat)
    requires policy.trustedModifiers.None? && scoped.offset == 0 && limit > 0
    ensures RequestedPage(db, policy, scoped, orderJoins, order, limit, k) ==
            Bases(Page(db.arrange(k, scoped.order + order, Ordered(db, scoped, orderJoins, order)), limit,
              PageStart(k, limit)))
  {
    hide Matching, Bases, Page, PageStart;
    var s := RowsOnly(policy, scoped, orderJoins, order, ListPage(limit, PageStart(k, limit)));
    MatchingIgnoresPage(db, OrderApplied(scoped, orderJoins, order), s);
  }

  /** Every page ends between rows that the ORDER BY tells apart. Which rows these are does not depend
      on the arrangement looked at. */
  ghost predicate BoundariesDecided<R, Q>(db: Database<R, Q>, order: seq<OrderKey>, ts: seq<Tuple<R, Q>>, limit: nat) {
    forall n: nat :: Decided(db, order, db.arrange(0, order, ts), PageStart(n, limit))
  }

  /** The ORDER BY tells all rows apart, and there are no equal ones. */
  ghost predicate Distinguishes<R, Q>(db: Database<R, Q>, order: seq<OrderKey>, ts: seq<Tuple<R, Q>>) {
    && (forall x :: x in ts ==> multiset(ts)[x] == 1)
    && forall x, y :: x in ts && y in ts && Precedes(db, order, x, y) && Precedes(db, order, y, x) ==> x == y
  }

  lemma {:induction false} PagesAddUp<R(!new), Q(!new)>(db: Database<R, Q>, policy: Policy<Tuple<R, Q>>,
        scoped: Select<Tuple<R, Q>>, orderJoins: seq<string>, order: seq<OrderKey>, limit: nat, n: nat)
    requires policy.trustedModifiers.None? && scoped.offset == 0 && limit > 0 && Compares(db) && Arranges(db)
    requires BoundariesDecided(db, scoped.order + order, Ordered(db, scoped, orderJoins, order), limit)
    ensures var ts := Ordered(db, scoped, orderJoins, order);
            multiset(PagedRows(db, policy, scoped, orderJoins, order, limit, n)) ==
            multiset(Bases(UpTo(db.arrange(0, scoped.order + order, ts), PageStart(n, limit))))
    decreases n
  {
    hide Compares, Ordered, RequestedPage, Bases, Page, UpTo, Decided, SortedBy;
    var ts, keys := Ordered(db, scoped, orderJoins, order), scoped.order + order;
    var s := db.arrange(0, keys, ts);
    if n == 0 {
      EmptyPrefix(s);
      BasesEmpty<R, Q>();
    } else {
      PagesAddUp(db, policy, scoped, orderJoins, order, limit, n - 1);
      OnePage(db, policy, scoped, orderJoins, order, limit, n - 1);
      var start, t := PageStart(n - 1, limit), db.arrange(n - 1, keys, ts);
      assert PageStart(n, limit) == start + limit;
      assert Decided(db, keys, s, start) && Decided(db, keys, s, PageStart(n, limit));
      PageIsDifference(db, keys, s, t, limit, start);
      BasesAppend(UpTo(s, start), Page(t, limit, start));
      BasesPermuted(UpTo(s, start) + Page(t, limit, start), UpTo(s, start + limit));
    }
  }

  lemma EmptyPrefix<T>(ts: seq<T>)
    ensures UpTo(ts, 0) == []
  {
  }

  lemma PageIsDifference<R(!new), Q(!new)>(db: Database<R, Q>, order: seq<OrderKey>, s: seq<Tuple<R, Q>>,
                                           t: seq<Tuple<R, Q>>, limit: nat, start: nat)
    requires Compares(db) && SortedBy(db, order, s) && SortedBy(db, order, t) && multiset(s) == multiset(t) && limit > 0
    requires Decided(db, order, s, start) && Decided(db, order, s, start + limit)
    ensures multiset(UpTo(s, start) + Page(t, limit, start)) == multiset(UpTo(s, start + limit))
  {
    hide Compares, Decided, SortedBy, UpTo, Page;
    DecidedPrefix(db, order, s, t, start);
    DecidedPrefix(db, order, s, t, start + limit);
    NextPage(t, limit, start);
  }

  /** Rows and count agree, if each page ends between rows that the ORDER BY tells apart: pages of any
      positive size, read one after the other until they cover the count, return exactly the base rows
      that match the shared scope, each as often as it matches, and the count is their number. */
  lemma PagesCoverTheCount<R(!new), Q(!new)>(db: Database<R, Q>, policy: Policy<Tuple<R, Q>>,
                                             scoped: Select<Tuple<R, Q>>, orderJoins: seq<string>,
                                             order: seq<OrderKey>, limit: nat, n: nat)
    requires policy.trustedModifiers.None? && scoped.offset == 0 && Compares(db) && Arranges(db)
    requires forall r :: r in orderJoins && r !in Joined(scoped.joins) ==>
      ToOne(db, r) && forall i :: 0 <= i < |scoped.wheres| ==> Ignores(scoped.wheres[i], r)
    requires limit > 0 && n * limit >= CountRows(db, scoped)
    requires BoundariesDecided(db, scoped.order + order, Ordered(db, scoped, orderJoins, order), limit)
    ensures var all := PagedRows(db, policy, scoped, orderJoins, order, limit, n);
            multiset(all) == multiset(Bases(Matching(db, scoped))) && |all| == CountRows(db, scoped)
  {
    hide Matching, ToOne, Ignores, QueryRows, Bases, BoundariesDecided, Compares, PagedRows, SortedBy;
    var ts := Ordered(db, scoped, orderJoins, order);
    OrderedBases(db, scoped, orderJoins, order);
    PagesAddUp(db, policy, scoped, orderJoins, order, limit, n);
    var s := db.arrange(0, scoped.order + order, ts);
    BasesLength(ts);
    BasesLength(Matching(db, scoped));
    assert |s| == |multiset(s)| == |multiset(ts)| == |ts|;
    assert UpTo(s, PageStart(n, limit)) == s by {
      assert s[..|s|] == s;
    }
    BasesPermuted(s, ts);
    var all := PagedRows(db, policy, scoped, orderJoins, order, limit, n);
    assert |all| == |multiset(all)| == |multiset(Bases(ts))| == |Bases(ts)|;
  }

  lemma OrderedBases<R(!new), Q(!new)>(db: Database<R, Q>, scoped: Select<Tuple<R, Q>>, orderJoins: seq<string>,
                                       order: seq<OrderKey>)
    requires forall r :: r in orderJoins && r !in Joined(scoped.joins) ==>
      ToOne(db, r) && forall i :: 0 <= i < |scoped.wheres| ==> Ignores(scoped.wheres[i], r)
    ensures Bases(Ordered(db, scoped, orderJoins, order)) == Bases(Matching(db, scoped))
  {
    hide Matching, ToOne, Ignores, Bases;
    OrderJoinsKeepBases(db, scoped, orderJoins);
    MatchingIgnoresPage(db, OrderApplied(scoped, orderJoins, order),
      scoped.(joins := scoped.joins + DefaultJoins(orderJoins)));
  }

  /** Keys that tell all rows apart decide every boundary. */
  lemma DistinguishedBoundaries<R(!new), Q(!new)>(db: Database<R, Q>, order: seq<OrderKey>, ts: seq<Tuple<R, Q>>,
                                                  limit: nat)
    requires Arranges(db) && Distinguishes(db, order, ts)
    ensures BoundariesDecided(db, order, ts, limit)
  {
    hide Precedes;
    var s := db.arrange(0, order, ts);
    assert multiset(s) == multiset(ts) && SortedBy(db, order, s);
    forall n: nat ensures Decided(db, order, s, PageStart(n, limit)) {
      DistinctNeighbours(db, order, s, ts, PageStart(n, limit));
    }
  }

  lemma DistinctNeighbours<R, Q>(db: Database<R, Q>, order: seq<OrderKey>, s: seq<Tuple<R, Q>>, ts: seq<Tuple<R, Q>>,
                                 end: nat)
    requires multiset(s) == multiset(ts) && SortedBy(db, order, s) && Distinguishes(db, order, ts)
    ensures Decided(db, order, s, end)
  {
    hide Precedes;
    if 0 < end < |s| && Precedes(db, order, s[end], s[end - 1]) {
      var x, y := s[end - 1], s[end];
      assert x in multiset(s) && y in multiset(s);
      assert Precedes(db, order, x, y);
      TwiceCounts(s, end - 1, end);
      assert false;
    }
  }

  lemma TwiceCounts<T>(s: seq<T>, i: nat, j: nat)
    requires i < j < |s| && s[i] == s[j]
    ensures multiset(s)[s[i]] >= 2
  {
    TakeOut(s, i);
    assert (s[..i] + s[i + 1..])[j - 1] == s[j];
    assert s[j] in multiset(s[..i] + s[i + 1..]);
  }

  // ----- undecided page boundaries -----------------------------------------------------------------

  /** The databases differ at most in how they arrange results. */
  ghost predicate SameData<R, Q>(a: Database<R, Q>, b: Database<R, Q>) {
    a.rows == b.rows && a.related == b.related && a.atMost == b.atMost
  }

  lemma {:induction false} PrecedesSame<R, Q>(a: Database<R, Q>, b: Database<R, Q>, order: seq<OrderKey>,
                                              x: Tuple<R, Q>, y: Tuple<R, Q>)
    requires SameData(a, b)
    ensures Precedes(a, order, x, y) == Precedes(b, order, x, y)
    decreases order
  {
    if order != [] {
      PrecedesSame(a, b, order[1..], x, y);
    }
  }

  lemma {:induction false} ExpandSame<R, Q>(a: Database<R, Q>, b: Database<R, Q>, ts: seq<Tuple<R, Q>>,
                                            relation: string, kind: JoinKind)
    requires SameData(a, b)
    ensures Expand(a, ts, relation, kind) == Expand(b, ts, relation, kind)
    decreases ts
  {
    if ts != [] {
      ExpandSame(a, b, ts[1..], relation, kind);
    }
  }

  lemma {:induction false} ExpandAllSame<R, Q>(a: Database<R, Q>, b: Database<R, Q>, ts: seq<Tuple<R, Q>>,
        relations: seq<string>, joins: seq<Join>)
    requires SameData(a, b)
    ensures ExpandAll(a, ts, relations, joins) == ExpandAll(b, ts, relations, joins)
    decreases |relations|
  {
    if relations != [] {
      var init, last := relations[..|relations| - 1], relations[|relations| - 1];
      ExpandAllSame(a, b, ts, init, joins);
      ExpandSame(a, b, ExpandAll(a, ts, init, joins), last, KindOf(joins, last));
    }
  }

  lemma OrderedSame<R, Q>(a: Database<R, Q>, b: Database<R, Q>, scoped: Select<Tuple<R, Q>>, orderJoins: seq<string>,
                          order: seq<OrderKey>)
    requires SameData(a, b)
    ensures Ordered(a, scoped, orderJoins, order) == Ordered(b, scoped, orderJoins, order)
  {
    var s := OrderApplied(scoped, orderJoins, order);
    ExpandAllSame(a, b, Unjoined(a.rows), Joined(s.joins), s.joins);
  }

  function Swapped<T>(s: seq<T>, end: nat): seq<T>
    requires 0 < end < |s|
  {
    s[end - 1 := s[end]][end := s[end - 1]]
  }

  /** Rows that the ORDER BY does not tell apart may come in either order. */
  lemma SwappedIsSorted<R, Q>(db: Database<R, Q>, order: seq<OrderKey>, s: seq<Tuple<R, Q>>, end: nat)
    requires 0 < end < |s| && SortedBy(db, order, s) && !Decided(db, order, s, end)
    ensures SortedBy(db, order, Swapped(s, end)) && multiset(Swapped(s, end)) == multiset(s)
  {
  }

  /** Pages that could all have been cut from one list add up to that list. */
  lemma {:induction false} PagesOfOneList<R(!new), Q(!new)>(db: Database<R, Q>, policy: Policy<Tuple<R, Q>>,
        scoped: Select<Tuple<R, Q>>, orderJoins: seq<string>, order: seq<OrderKey>, limit: nat, n: nat,
        mixed: seq<Tuple<R, Q>>)
    requires policy.trustedModifiers.None? && scoped.offset == 0 && limit > 0
    requires var ts := Ordered(db, scoped, orderJoins, order);
             forall k: nat :: k < n ==> Page(db.arrange(k, scoped.order + order, ts), limit, PageStart(k, limit)) ==
                                        Page(mixed, limit, PageStart(k, limit))
    ensures PagedRows(db, policy, scoped, orderJoins, order, limit, n) == Bases(UpTo(mixed, PageStart(n, limit)))
    decreases n
  {
    hide Ordered, RequestedPage, Bases, Page, UpTo;
    if n == 0 {
      EmptyPrefix(mixed);
      BasesEmpty<R, Q>();
    } else {
      var start := PageStart(n - 1, limit);
      assert PageStart(n, limit) == start + limit;
      PagesOfOneList(db, policy, scoped, orderJoins, order, limit, n - 1, mixed);
      OnePage(db, policy, scoped, orderJoins, order, limit, n - 1);
      NextPage(mixed, limit, start);
      BasesAppend(UpTo(mixed, start), Page(mixed, limit, start));
    }
  }

  /** A database that arranges one result in one way for the first executions, and with two rows that
      the ORDER BY does not tell apart swapped for the later ones. */
  ghost function Wavering<R, Q>(db: Database<R, Q>, order: seq<OrderKey>, ts: seq<Tuple<R, Q>>, end: nat, k: nat):
    Database<R, Q>
    requires 0 < end < |db.arrange(0, order, ts)|
  {
    var s := db.arrange(0, order, ts);
    var t := Swapped(s, end);
    db.(arrange := (e: nat, o: seq<OrderKey>, x: seq<Tuple<R, Q>>) =>
          if o == order && x == ts then (if e < k then s else t) else db.arrange(0, o, x))
  }

  lemma WaveringArranges<R(!new), Q(!new)>(db: Database<R, Q>, order: seq<OrderKey>, ts: seq<Tuple<R, Q>>, end: nat,
                                           k: nat)
    requires 0 < end < |db.arrange(0, order, ts)| && Arranges(db) && !Decided(db, order, db.arrange(0, order, ts), end)
    ensures Arranges(Wavering(db, order, ts, end, k))
  {
    var s, other := db.arrange(0, order, ts), Wavering(db, order, ts, end, k);
    assert multiset(s) == multiset(ts);
    hide Precedes, Decided;
    SwappedIsSorted(db, order, s, end);
    forall e, o, x
      ensures multiset(other.arrange(e, o, x)) == multiset(x) && SortedBy(other, o, other.arrange(e, o, x))
    {
      var r := other.arrange(e, o, x);
      assert multiset(r) == multiset(x) && SortedBy(db, o, r);
      forall i, j | 0 <= i < j < |r| ensures Precedes(other, o, r[i], r[j]) {
        PrecedesSame(other, db, o, r[i], r[j]);
      }
    }
  }

  /** The condition is exact: if some page ends between two different rows that the ORDER BY does not
      tell apart, a database with the same rows, which arranges every result as it is asked to, returns
      pages in which a row is repeated and another one missing. */
  lemma UndecidedPagesFail<R(!new), Q(!new)>(db: Database<R, Q>, policy: Policy<Tuple<R, Q>>,
                                             scoped: Select<Tuple<R, Q>>, orderJoins: seq<string>,
                                             order: seq<OrderKey>, limit: nat, n: nat, k: nat)
    returns (other: Database<R, Q>)
    requires policy.trustedModifiers.None? && scoped.offset == 0 && limit > 0 && Arranges(db)
    requires n * limit >= |Ordered(db, scoped, orderJoins, order)|
    requires var s := db.arrange(0, scoped.order + order, Ordered(db, scoped, orderJoins, order));
             var end := PageStart(k, limit);
             0 < end < |s| && !Decided(db, scoped.order + order, s, end) && s[end - 1].base != s[end].base
    ensures SameData(other, db) && Arranges(other)
    ensures multiset(PagedRows(other, policy, scoped, orderJoins, order, limit, n)) !=
            multiset(Bases(Ordered(other, scoped, orderJoins, order)))
  {
    var ts, keys, end := Ordered(db, scoped, orderJoins, order), scoped.order + order, PageStart(k, limit);
    var s := db.arrange(0, keys, ts);
    other := Wavering(db, keys, ts, end, k);
    WaveringArranges(db, keys, ts, end, k);
    OrderedSame(other, db, scoped, orderJoins, order);
    assert |s| == |multiset(s)| == |multiset(ts)| == |ts|;
    var mixed := s[end := s[end - 1]];
    forall e: nat | e < n
      ensures Page(other.arrange(e, keys, ts), limit, PageStart(e, limit)) == Page(mixed, limit, PageStart(e, limit))
    {
      MixedPage(s, limit, k, e);
    }
    BasesPermuted(s, ts);
    ReplacedBases(s, end);
    WholeList(mixed, PageStart(n, limit));
    hide Ordered, Bases, Decided, PagedRows, SortedBy, Arranges, Wavering, Precedes, Page, Swapped, UpTo, PageStart;
    PagesOfOneList(other, policy, scoped, orderJoins, order, limit, n, mixed);
  }

  lemma WholeList<T>(ts: seq<T>, end: nat)
    requires end >= |ts|
    ensures UpTo(ts, end) == ts
  {
  }

  lemma MixedPage<T>(s: seq<T>, limit: nat, k: nat, e: nat)
    requires limit > 0 && 0 < PageStart(k, limit) < |s|
    ensures var end, start := PageStart(k, limit), PageStart(e, limit);
            Page(if e < k then s else Swapped(s, end), limit, start) == Page(s[end := s[end - 1]], limit, start)
  {
    var end, start := PageStart(k, limit), PageStart(e, limit);
    if e < k {
      assert (e + 1) * limit <= k * limit;
      assert start + limit <= end;
      SamePage(s, s[end := s[end - 1]], limit, start);
    } else {
      assert k * limit <= e * limit;
      SamePage(Swapped(s, end), s[end := s[end - 1]], limit, start);
    }
  }

  lemma SamePage<T>(a: seq<T>, b: seq<T>, limit: nat, start: nat)
    requires limit > 0 && |a| == |b|
    requires forall i :: start <= i < start + limit && i < |a| ==> a[i] == b[i]
    ensures Page(a, limit, start) == Page(b, limit, start)
  {
  }

  lemma ReplacedBases<R, Q>(s: seq<Tuple<R, Q>>, end: nat)
    requires 0 < end < |s| && s[end - 1].base != s[end].base
    ensures multiset(Bases(s[end := s[end - 1]])) != multiset(Bases(s))
  {
    var a, b := Bases(s), Bases(s[end := s[end - 1]]);
    TakeOut(a, end);
    TakeOut(b, end);
    assert a[..end] == b[..end] && a[end + 1..] == b[end + 1..];
    assert multiset(a)[a[end]] == multiset(b)[a[end]] + 1;
  }

  /** A table of two rows in a database that reverses them from its second execution on. */
  function TwoRows(first: int, second: int): Database<int, int> {
    Database([first, second], (relation: string, row: int) => [],
             (key: OrderKey, a: Tuple<int, int>, b: Tuple<int, int>) => true,
             (e: nat, order: seq<OrderKey>, ts: seq<Tuple<int, int>>) => if e == 0 || |ts| != 2 then ts
               else [ts[1], ts[0]])
  }

  /** Without an ordering, and with one row to a page, the first of two rows may be returned twice. */
  lemma RowRepeated(first: int, second: int, policy: Policy<Tuple<int, int>>)
    requires first != second && policy.trustedModifiers.None?
    ensures var db := TwoRows(first, second);
            && Compares(db) && Arranges(db)
            && CountRows(db, NewSelect()) == 2
            && PagedRows(db, policy, NewSelect(), [], [], 1, 2) == [first, first]
  {
    var db := TwoRows(first, second);
    TwoRowsArranges(first, second);
    var x: Tuple<int, int>, y: Tuple<int, int> := Tuple(first, map[]), Tuple(second, map[]);
    var s: Select<Tuple<int, int>> := NewSelect();
    TwoRowsMatch(first, second);
    hide Matching, Ordered, RequestedPage, OrderApplied;
    OnePage(db, policy, s, [], [], 1, 0);
    OnePage(db, policy, s, [], [], 1, 1);
    assert s.order + [] == [];
    assert Page([x, y], 1, 0) == [x] && Page([y, x], 1, 1) == [x];
    assert Bases([x]) == [first];
    assert PagedRows(db, policy, s, [], [], 1, 0) == [];
    assert PagedRows(db, policy, s, [], [], 1, 1) == [first];
  }

  lemma TwoRowsArranges(first: int, second: int)
    ensures Compares(TwoRows(first, second)) && Arranges(TwoRows(first, second))
  {
    var db := TwoRows(first, second);
    forall order, a, b ensures Precedes(db, order, a, b) {
      AlwaysPrecedes(db, order, a, b);
    }
    forall e: nat, order: seq<OrderKey>, ts: seq<Tuple<int, int>>
      ensures multiset(db.arrange(e, order, ts)) == multiset(ts)
    {
      if |ts| == 2 {
        assert ts == [ts[0], ts[1]];
      }
    }
  }

  lemma TwoRowsMatch(first: int, second: int)
    ensures var x: Tuple<int, int>, y: Tuple<int, int> := Tuple(first, map[]), Tuple(second, map[]);
            && Matching(TwoRows(first, second), NewSelect()) == [x, y]
            && Ordered(TwoRows(first, second), NewSelect(), [], []) == [x, y]
  {
    var db := TwoRows(first, second);
    var s: Select<Tuple<int, int>> := NewSelect();
    var x: Tuple<int, int>, y: Tuple<int, int> := Tuple(first, map[]), Tuple(second, map[]);
    assert Unjoined<int, int>(db.rows) == [x, y];
    assert [x, y][1..] == [y] && [y][1..] == [];
    var none: seq<Tuple<int, int> -> bool> := [];
    assert Filtered(none, [y]) == [y] && Filtered(none, [x, y]) == [x, y];
    assert Matching(db, s) == [x, y];
    assert DefaultJoins([]) == [];
    assert OrderApplied(s, [], []) == s;
  }

  lemma {:induction false} AlwaysPrecedes<R(!new), Q(!new)>(db: Database<R, Q>, order: seq<OrderKey>, a: Tuple<R, Q>,
        b: Tuple<R, Q>)
    requires forall key, x, y :: db.atMost(key, x, y)
    ensures Precedes(db, order, a, b)
    decreases order
  {
    if order != [] {
      AlwaysPrecedes(db, order[1..], a, b);
    }
  }

  // ----- rows and count of a request -----------------------------------------------------------------

  ghost predicate IgnoreAll<R(!new), Q(!new)>(wheres: seq<Tuple<R, Q> -> bool>, relations: seq<string>) {
    forall i, r :: 0 <= i < |wheres| && r in relations ==> Ignores(wheres[i], r)
  }

  /** Trusted code that does not page and whose conditions do not look at the given relations. */
  ghost predicate Indifferent<R(!new), Q(!new)>(m: Modifier<Tuple<R, Q>>, relations: seq<string>) {
    forall s :: m(s).offset == s.offset && (IgnoreAll(s.wheres, relations) ==> IgnoreAll(m(s).wheres, relations))
  }

  ghost predicate IndifferentScope<R(!new), Q(!new)>(scope: Scope<Tuple<R, Q>>, relations: seq<string>) {
    forall s :: scope(s).Ok? ==>
      scope(s).value.offset == s.offset
        && (IgnoreAll(s.wheres, relations) ==> IgnoreAll(scope(s).value.wheres, relations))
  }

  ghost predicate IndifferentPolicy<R(!new), Q(!new)>(policy: Policy<Tuple<R, Q>>,
        forceFilters: seq<Modifier<Tuple<R, Q>>>, relations: seq<string>)
  {
    && (policy.visibility.Some? ==> Indifferent(policy.visibility.value, relations))
    && (forall i :: 0 <= i < |forceFilters| ==> Indifferent(forceFilters[i], relations))
    && (policy.trustedFilters.Some? ==> IndifferentScope(policy.trustedFilters.value, relations))
  }

  lemma {:induction false} ForcedIndifferent<R(!new), Q(!new)>(filters: seq<Modifier<Tuple<R, Q>>>,
        s: Select<Tuple<R, Q>>, relations: seq<string>)
    requires forall i :: 0 <= i < |filters| ==> Indifferent(filters[i], relations)
    requires IgnoreAll(s.wheres, relations)
    ensures Forced(filters, s).offset == s.offset && IgnoreAll(Forced(filters, s).wheres, relations)
  {
    hide IgnoreAll;
    if filters != [] {
      assert Indifferent(filters[0], relations);
      ForcedIndifferent(filters[1..], filters[0](s), relations);
    }
  }

  lemma ScopedIndifferent<R(!new), Q(!new)>(policy: Policy<Tuple<R, Q>>, forceFilters: seq<Modifier<Tuple<R, Q>>>,
                                            joins: seq<string>, filter: Option<ColumnFilter>,
                                            meaning: ColumnFilter -> (Tuple<R, Q> -> bool), relations: seq<string>)
    requires IndifferentPolicy(policy, forceFilters, relations)
    requires filter.Some? ==> forall r :: r in relations ==> Ignores(meaning(filter.value), r)
    ensures var scoped := Scoped(policy, forceFilters, joins, filter, meaning);
            scoped.Ok? ==> scoped.value.offset == 0 && IgnoreAll(scoped.value.wheres, relations)
  {
    hide Ignores;
    var built := NewSelect<Tuple<R, Q>>().(preloads := policy.preloads);
    assert IgnoreAll(built.wheres, relations);
    var visible := if policy.visibility.Some? then (policy.visibility.value)(built) else built;
    assert visible.offset == 0 && IgnoreAll(visible.wheres, relations);
    ForcedIndifferent(forceFilters, visible, relations);
    var public := FiltersApplied(Forced(forceFilters, visible), joins, filter, meaning);
    assert IgnoreAll(public.wheres, relations);
  }

  /** Rows and count of an accepted request agree. If every joined relation is to-one and trusted
      conditions are indifferent to what is joined only for ordering, the pages of any positive size,
      read until they cover the count, return every matching row once, and the count is their number. */
  lemma RowsAndCountAgree<R(!new), Q(!new), V(!new)>(db: Database<R, Q>, table: string, f: char -> char,
        index: map<string, QueryField>, filter: Filter, order: seq<OrderRequest>, keys: seq<OrderKey>,
        orderJoins: seq<string>, leaf: LeafMeaning<V>, cell: (Tuple<R, Q>, string) -> V, policy: Policy<Tuple<R, Q>>,
        forceFilters: seq<Modifier<Tuple<R, Q>>>, scoped: Select<Tuple<R, Q>>, limit: nat, n: nat)
    requires Unicode(f) && IndexQualified(table, index) && WellFormed(f, index, filter) && LocalCells(cell)
      && Compares(db) && Arranges(db)
    requires OrderResolved(f, index, order, keys, Convert(f, index, filter, []).joins, orderJoins)
      && table !in orderJoins
    requires policy.trustedModifiers.None? && IndifferentPolicy(policy, forceFilters, orderJoins)
    requires Convert(f, index, filter, []).result.Ok?
      && Scoped(policy, forceFilters, Convert(f, index, filter, []).joins,
      Condition(Convert(f, index, filter, []).result.value), FilterMeaning(leaf, cell)) == Ok(scoped)
    requires forall r :: r in Joined(scoped.joins) || r in orderJoins ==> ToOne(db, r)
    requires limit > 0 && n * limit >= CountRows(db, scoped)
    requires BoundariesDecided(db, scoped.order + keys, Ordered(db, scoped, orderJoins, keys), limit)
    ensures multiset(PagedRows(db, policy, scoped, orderJoins, keys, limit, n)) ==
      multiset(MatchingRows(db, scoped, db.rows))
    ensures CountRows(db, scoped) == |MatchingRows(db, scoped, db.rows)|
  {
    hide Convert, WellFormed, LocalCells, Ignores, FilterMeaning, Scoped, IndifferentPolicy, OrderResolved, ToOne,
      MatchingRows, Arranges, Compares, BoundariesDecided, Ordered, PagedRows, Bases, Matching;
    var converted := Convert(f, index, filter, []);
    forall r | r in orderJoins ensures Ignores(FilterMeaning(leaf, cell)(converted.result.value), r) {
      FilterIgnoresOrderJoins(table, f, index, filter, order, keys, orderJoins, leaf, cell, r);
    }
    ScopedIndifferent(policy, forceFilters, converted.joins, Condition(converted.result.value),
      FilterMeaning(leaf, cell), orderJoins);
    PagesCoverTheCount(db, policy, scoped, orderJoins, keys, limit, n);
    MatchingIsSelection(db, scoped);
    BasesLength(Matching(db, scoped));
  }

  // ----- what a list request gets ----------------------------------------------------------------------

  /** A base row matches the shared scope of an accepted request exactly if it is wanted. */
  lemma {:induction false} WantedMatches<R(!new), Q(!new), V(!new)>(db: Database<R, Q>, table: string, f: char -> char,
        index: map<string, QueryField>, leaf: LeafMeaning<V>, cell: (Tuple<R, Q>, string) -> V,
        policy: Policy<Tuple<R, Q>>, input: ListInput<Tuple<R, Q>>, scoped: Select<Tuple<R, Q>>, row: R)
    requires Unicode(f) && IndexQualified(table, index) && RestrictingPolicy(policy, input.forceFilters)
    requires var converted := Convert(f, index, input.filter, []);
             && converted.result.Ok?
             && Scoped(policy, input.forceFilters, converted.joins, Condition(converted.result.value),
               FilterMeaning(leaf, cell)) == Ok(scoped)
    ensures RowMatches(db, scoped, row) <==> Wanted(db, f, index, leaf, cell, policy, input, row)
  {
    hide Convert, Known, FieldNamed, Scoped, RestrictingPolicy, Holds, Seen, RowMatches, LeafColumns, Relations,
      EvalPublic, EvalColumns, Allowed, InScope, NoDuplicates, IndexQualified, DefaultJoins, Public, FilterMeaning;
    var converted := Convert(f, index, input.filter, []);
    ScopedAsks(policy, input.forceFilters, converted.joins, Condition(converted.result.value),
      FilterMeaning(leaf, cell));
    DefaultRowMatches(db, scoped, converted.joins, row);
    FilterRelations(table, f, index, input.filter);
    var seen := Seen(db, row, Relations(f, index, input.filter));
    ScopedMatches(policy, input.forceFilters, converted.joins, Condition(converted.result.value),
      FilterMeaning(leaf, cell), seen);
    FilterTrue(f, index, input.filter, leaf, cell, seen);
  }

  lemma FilterRelations(table: string, f: char -> char, index: map<string, QueryField>, filter: Filter)
    requires Unicode(f) && IndexQualified(table, index) && Convert(f, index, filter, []).result.Ok?
    ensures (set r | r in Convert(f, index, filter, []).joins) == Relations(f, index, filter)
  {
    hide Convert, Relations, IndexQualified, LeafColumns, InScope;
    ConversionIsScoped(table, f, index, filter, []);
  }

  lemma {:induction false} FilterTrue<R(!new), Q(!new), V(!new)>(f: char -> char, index: map<string, QueryField>,
        filter: Filter, leaf: LeafMeaning<V>, cell: (Tuple<R, Q>, string) -> V, seen: Tuple<R, Q>)
    requires Unicode(f) && Convert(f, index, filter, []).result.Ok?
    ensures var condition := Condition(Convert(f, index, filter, []).result.value);
            (condition.Some? ==> FilterMeaning(leaf, cell)(condition.value)(seen)) <==>
              EvalPublic(leaf, filter, Public(f, index, Cells(seen, cell))) == True
  {
    hide Convert, Known, FieldNamed, EvalPublic;
    var cells := Cells(seen, cell);
    assert SeenThrough(f, index, Public(f, index, cells), cells);
    ConversionPreservesMeaning(f, index, filter, [], leaf, Public(f, index, cells), cells);
  }

  lemma PageOfBases<R, Q>(ts: seq<Tuple<R, Q>>, limit: nat, offset: nat)
    ensures Bases(Page(ts, limit, offset)) == Page(Bases(ts), limit, offset)
  {
  }

  lemma {:induction false} RowQueryIs<R, Q>(db: Database<R, Q>, execution: nat, policy: Policy<Tuple<R, Q>>,
                                            scoped: Select<Tuple<R, Q>>, orderJoins: seq<string>, keys: seq<OrderKey>,
                                            page: ListPage)
    requires policy.trustedModifiers.None? && scoped.order == [] && scoped.limit == scoped.offset == 0
    requires page.limit >= 0 && page.offset >= 0
    ensures QueryRows(db, execution, RowsOnly(policy, scoped, orderJoins, keys, page)) ==
      Page(Bases(db.arrange(execution, keys, Ordered(db, scoped, orderJoins, keys))), page.limit, page.offset)
  {
    hide Matching, Bases, Page;
    var s := RowsOnly(policy, scoped, orderJoins, keys, page);
    MatchingIgnoresPage(db, OrderApplied(scoped, orderJoins, keys), s);
    assert [] + keys == keys;
    PageOfBases(db.arrange(execution, keys, Ordered(db, scoped, orderJoins, keys)), page.limit, page.offset);
  }

  /** Restricting trusted code that overlooks a relation adds only conditions that ignore it. */
  lemma {:induction false} OverlookedIsIgnored<R(!new), Q(!new)>(policy: Policy<Tuple<R, Q>>,
        forceFilters: seq<Modifier<Tuple<R, Q>>>, relations: seq<string>)
    requires RestrictingPolicy(policy, forceFilters) && forall r :: r in relations ==>
      Overlooks(policy, forceFilters, r)
    ensures IndifferentPolicy(policy, forceFilters, relations)
  {
    hide Ignores, AllIgnore;
    if policy.visibility.Some? {
      AddedIsIgnored(policy.visibility.value, relations);
    }
    forall i | 0 <= i < |forceFilters| ensures Indifferent(forceFilters[i], relations) {
      AddedIsIgnored(forceFilters[i], relations);
    }
    if policy.trustedFilters.Some? {
      TrustedIsIgnored(policy.trustedFilters.value, relations);
    }
  }

  lemma {:induction false} AddedIsIgnored<R(!new), Q(!new)>(m: Modifier<Tuple<R, Q>>, relations: seq<string>)
    requires Restricts(m) && forall r :: r in relations ==> AllIgnore(m(NewSelect()).wheres, r)
    ensures Indifferent(m, relations)
  {
    hide Ignores;
    var own := m(NewSelect()).wheres;
    forall s: Select<Tuple<R, Q>>
      ensures m(s).offset == s.offset && (IgnoreAll(s.wheres, relations) ==> IgnoreAll(m(s).wheres, relations))
    {
      assert m(s) == s.(wheres := s.wheres + own);
    }
  }

  lemma {:induction false} TrustedIsIgnored<R(!new), Q(!new)>(scope: Scope<Tuple<R, Q>>, relations: seq<string>)
    requires RestrictsOrFails(scope)
    requires scope(NewSelect()).Ok? ==> forall r :: r in relations ==>
      AllIgnore(scope(NewSelect()).value.wheres, r)
    ensures IndifferentScope(scope, relations)
  {
    hide Ignores;
    forall s: Select<Tuple<R, Q>> | scope(s).Ok?
      ensures scope(s).value.offset == s.offset
      ensures IgnoreAll(s.wheres, relations) ==> IgnoreAll(scope(s).value.wheres, relations)
    {
      assert scope(s) ==
        match scope(NewSelect()) case Ok(o) => Ok(s.(wheres := s.wheres + o.wheres)) case Err(e) => Err(e);
    }
  }

  /** The relations a request names, by the joins resolved for it. */
  lemma {:induction false} RequestRelations<R(!new), Q(!new), V(!new)>(db: Database<R, Q>, table: string,
        f: char -> char, index: map<string, QueryField>, cell: (Tuple<R, Q>, string) -> V,
        policy: Policy<Tuple<R, Q>>, input: ListInput<Tuple<R, Q>>, keys: seq<OrderKey>, orderJoins: seq<string>)
    requires Unicode(f) && Plain(db, table, f, index, cell, policy, input) && WellFormed(f, index, input.filter)
    requires OrderResolved(f, index, input.orderBy, keys, Convert(f, index, input.filter, []).joins, orderJoins)
    ensures var joins := Convert(f, index, input.filter, []).joins;
            var relations := Relations(f, index, input.filter);
            && (set r | r in joins) == relations
            && (set r | r in joins + orderJoins) == relations + OrderRelations(f, index, input.orderBy)
            && (forall r :: r in joins + orderJoins ==> r != table && ToOne(db, r))
            && forall r :: r in orderJoins ==> Overlooks(policy, input.forceFilters, r)
  {
    hide Convert, WellFormed, Relations, LocalCells, Arranges, ToOne, Overlooks, RestrictingPolicy, LeafColumns,
      InScope;
    QueriesAreScoped(table, f, index, input.filter, input.orderBy, keys, orderJoins);
  }

  /** `ranked` are the base rows of the row query before the page is cut. */
  lemma {:induction false} ListedRows<R(!new), Q(!new), V(!new)>(db: Database<R, Q>, execution: nat, table: string,
        f: char -> char, index: map<string, QueryField>, leaf: LeafMeaning<V>, cell: (Tuple<R, Q>, string) -> V,
        policy: Policy<Tuple<R, Q>>, input: ListInput<Tuple<R, Q>>, keys: seq<OrderKey>, orderJoins: seq<string>,
        scoped: Select<Tuple<R, Q>>)
    returns (ranked: seq<R>)
    requires Unicode(f) && Plain(db, table, f, index, cell, policy, input) && WellFormed(f, index, input.filter)
    requires OrderResolved(f, index, input.orderBy, keys, Convert(f, index, input.filter, []).joins, orderJoins)
    requires input.page.limit >= 0 && input.page.offset >= 0
    requires var converted := Convert(f, index, input.filter, []);
             && converted.result.Ok?
             && Scoped(policy, input.forceFilters, converted.joins, Condition(converted.result.value),
               FilterMeaning(leaf, cell)) == Ok(scoped)
    ensures Ranks(db, f, index, leaf, cell, policy, input, keys, ranked)
    ensures QueryRows(db, execution, RowsOnly(policy, scoped, orderJoins, keys, input.page)) ==
      Page(ranked, input.page.limit, input.page.offset)
    ensures CountRows(db, scoped) == |ranked|
  {
    hide Convert, WellFormed, Relations, OrderRelations, Scoped, RestrictingPolicy, Overlooks, Matching, Bases, Page,
      ToOne, Ignores, OrderResolved, LocalCells, IndifferentPolicy, MatchingRows, RowMatches, Wanted, FilterMeaning,
      Precedes, Seen, DefaultJoins, Joined, RowsOnly, QueryRows;
    var converted := Convert(f, index, input.filter, []);
    RequestRelations(db, table, f, index, cell, policy, input, keys, orderJoins);
    ScopedAsks(policy, input.forceFilters, converted.joins, Condition(converted.result.value),
      FilterMeaning(leaf, cell));
    var ts := Ordered(db, scoped, orderJoins, keys);
    var sorted := db.arrange(execution, keys, ts);
    ranked := Bases(sorted);
    RowQueryIs(db, execution, policy, scoped, orderJoins, keys, input.page);
    RankedBases(db, table, f, index, leaf, cell, policy, input, keys, orderJoins, scoped);
    BasesPermuted(sorted, ts);
    forall row
      ensures multiset(ranked)[row] ==
              if Wanted(db, f, index, leaf, cell, policy, input, row) then multiset(db.rows)[row] else 0
    {
      WantedMatches(db, table, f, index, leaf, cell, policy, input, scoped, row);
      SelectionCounts(db, scoped, db.rows, row);
    }
    RankedSeen(db, execution, converted.joins, orderJoins, keys, scoped);
    BasesLength(Matching(db, scoped));
    assert |ranked| == |multiset(ranked)| == |multiset(MatchingRows(db, scoped, db.rows))|;
  }

  lemma {:induction false} RankedBases<R(!new), Q(!new), V(!new)>(db: Database<R, Q>, table: string, f: char -> char,
        index: map<string, QueryField>, leaf: LeafMeaning<V>, cell: (Tuple<R, Q>, string) -> V,
        policy: Policy<Tuple<R, Q>>, input: ListInput<Tuple<R, Q>>, keys: seq<OrderKey>, orderJoins: seq<string>,
        scoped: Select<Tuple<R, Q>>)
    requires Unicode(f) && Plain(db, table, f, index, cell, policy, input) && WellFormed(f, index, input.filter)
    requires OrderResolved(f, index, input.orderBy, keys, Convert(f, index, input.filter, []).joins, orderJoins)
    requires var converted := Convert(f, index, input.filter, []);
             && converted.result.Ok? && scoped.joins == DefaultJoins(converted.joins)
             && Scoped(policy, input.forceFilters, converted.joins, Condition(converted.result.value),
               FilterMeaning(leaf, cell)) == Ok(scoped)
    ensures Bases(Ordered(db, scoped, orderJoins, keys)) == MatchingRows(db, scoped, db.rows)
    ensures Bases(Matching(db, scoped)) == MatchingRows(db, scoped, db.rows)
  {
    hide Convert, WellFormed, Relations, OrderRelations, Scoped, RestrictingPolicy, Overlooks, Matching, Bases,
      ToOne, Ignores, OrderResolved, IndifferentPolicy, MatchingRows, FilterMeaning, DefaultJoins, Joined, LocalCells;
    var converted := Convert(f, index, input.filter, []);
    RequestRelations(db, table, f, index, cell, policy, input, keys, orderJoins);
    forall r | r in orderJoins ensures Ignores(FilterMeaning(leaf, cell)(converted.result.value), r) {
      assert r in converted.joins + orderJoins;
      FilterIgnoresOrderJoins(table, f, index, input.filter, input.orderBy, keys, orderJoins, leaf, cell, r);
    }
    OverlookedIsIgnored(policy, input.forceFilters, orderJoins);
    ScopedIndifferent(policy, input.forceFilters, converted.joins, Condition(converted.result.value),
      FilterMeaning(leaf, cell), orderJoins);
    OrderedBases(db, scoped, orderJoins, keys);
    JoinedDefaults(converted.joins);
    MatchingIsSelection(db, scoped);
  }

  /** The row query sees each base row with all the relations it joins. */
  lemma {:induction false} RankedSeen<R(!new), Q(!new)>(db: Database<R, Q>, execution: nat, joins: seq<string>,
        orderJoins: seq<string>, keys: seq<OrderKey>, scoped: Select<Tuple<R, Q>>)
    requires Arranges(db) && scoped.joins == DefaultJoins(joins) && forall r :: r in joins + orderJoins ==> ToOne(db, r)
    ensures var sorted := db.arrange(execution, keys, Ordered(db, scoped, orderJoins, keys));
            var ranked, relations := Bases(sorted), set r | r in joins + orderJoins;
            forall i, j :: 0 <= i < j < |ranked| ==>
              Precedes(db, keys, Seen(db, ranked[i], relations), Seen(db, ranked[j], relations))
  {
    hide Matching, ToOne, Precedes, Seen;
    var s := OrderApplied(scoped, orderJoins, keys);
    assert s.joins == DefaultJoins(joins + orderJoins);
    var ts := Ordered(db, scoped, orderJoins, keys);
    var sorted := db.arrange(execution, keys, ts);
    assert multiset(sorted) == multiset(ts) && SortedBy(db, keys, sorted);
    forall i | 0 <= i < |sorted| ensures sorted[i] == Seen(db, Bases(sorted)[i], set r | r in joins + orderJoins) {
      assert sorted[i] in multiset(sorted);
      assert sorted[i] in ts;
      MatchingIsSeen(db, s, joins + orderJoins, sorted[i]);
    }
  }

  /** The row query is the count query as the trusted row modifiers leave it, extended only by order joins,
      ordering and the page, in this sequence; and an accepted page with an offset has a limit. */
  lemma RowsExtendCount<T>(policy: Policy<T>, scoped: Select<T>, orderJoins: seq<string>, order: seq<OrderKey>,
                           page: ListPage)
    requires ValidatePagination(page).None?
    ensures var rows := RowsOnly(policy, scoped, orderJoins, order, page);
            var count := match policy.trustedModifiers case None => scoped case Some(modifier) => modifier(scoped);
            && rows.wheres == count.wheres && rows.preloads == count.preloads && rows.forUpdate == count.forUpdate
            && rows.joins == count.joins + DefaultJoins(orderJoins) && rows.order == count.order + order
            && rows.limit == (if page.limit > 0 then page.limit else count.limit)
            && rows.offset == (if page.offset > 0 then page.offset else count.offset)
            && (page.offset > 0 ==> rows.limit > 0)
  {
  }
}
