/**
 The query side of query_fields.go: a filter tree over public names is compiled to a filter tree
 over qualified columns, with the relations that have to be joined for it.
 */
module QueryFilters {
  import opened Builders
  import opened FieldNames
  import opened Json
  import opened QueryFields
  import opened Wrappers

  /** The filter's "type": absent, a boolean connective, or an operator on one field. */
  datatype Kind = NoKind | And | Or | Not | Leaf(op: string)

  datatype Operand = Operand(value: Option<Json>, values: seq<Json>, from: Option<Json>, upTo: Option<Json>)

  const NO_OPERAND := Operand(None, [], None, None)

  /** `JsonFilter`, over public names. */
  datatype Filter = Filter(kind: Kind, field: string, operand: Operand, fields: seq<Filter>)

  /** `sqlc.JsonFilter`, over columns. */
  datatype ColumnFilter = ColumnFilter(kind: Kind, column: string, operand: Operand, fields: seq<ColumnFilter>)

  datatype QueryError =
    | TypeRequired
    | FieldOnConnective
    | ChildNeedsType(index: nat)
    | ChildrenOnLeaf
    | UnknownQueryField(name: string)
    | BadFilter
    | BadOrder(index: nat)

  function AppendUnique(joins: seq<string>, relation: string): seq<string> {
    if relation in joins then joins else joins + [relation]
  }

  // ----- specification of the conversion -------------------------------------------------------

  /** What a conversion yields: the tree or an error, and the joins asked for on the way. */
  datatype Converted<+T> = Converted(result: Result<T, QueryError>, joins: seq<string>)

  ghost function Convert(f: char -> char, index: map<string, QueryField>, filter: Filter, joins: seq<string>):
    Converted<ColumnFilter>
    requires Unicode(f)
    decreases filter
  {
    match filter.kind
    case NoKind =>
      if filter.field != "" || filter.fields != [] || filter.operand != NO_OPERAND
        then Converted(Err(TypeRequired), joins)
      else Converted(Ok(ColumnFilter(NoKind, "", NO_OPERAND, [])), joins)
    case Leaf(_) =>
      if filter.fields != [] then Converted(Err(ChildrenOnLeaf), joins)
      else
        (match FieldNamed(f, index, filter.field)
         case None => Converted(Err(UnknownQueryField(filter.field)), joins)
         case Some(q) =>
           Converted(Ok(ColumnFilter(filter.kind, q.column, filter.operand, [])),
                     if q.relation != "" then AppendUnique(joins, q.relation) else joins))
    case _ =>
      if filter.field != "" then Converted(Err(FieldOnConnective), joins)
      else
        var children := ConvertAll(f, index, filter.fields, joins);
        match children.result
        case Err(e) => Converted(Err(e), children.joins)
        case Ok(fields) => Converted(Ok(ColumnFilter(filter.kind, "", filter.operand, fields)), children.joins)
  }

  ghost function ConvertAll(f: char -> char, index: map<string, QueryField>, filters: seq<Filter>, joins: seq<string>):
    Converted<seq<ColumnFilter>>
    requires Unicode(f)
    decreases filters
  {
    if filters == [] then Converted(Ok([]), joins)
    else
      var init := filters[..|filters| - 1];
      var last := filters[|filters| - 1];
      var before := ConvertAll(f, index, init, joins);
      if before.result.Err? then before
      else if last.kind.NoKind? then Converted(Err(ChildNeedsType(|init|)), before.joins)
      else
        var child := Convert(f, index, last, before.joins);
        match child.result
        case Err(e) => Converted(Err(e), child.joins)
        case Ok(c) => Converted(Ok(before.result.value + [c]), child.joins)
  }

  lemma {:induction false} ConvertAllPrefix(f: char -> char, index: map<string, QueryField>, filters: seq<Filter>,
                                            joins: seq<string>, n: nat)
    requires Unicode(f) && n <= |filters| && ConvertAll(f, index, filters[..n], joins).result.Err?
    ensures ConvertAll(f, index, filters, joins) == ConvertAll(f, index, filters[..n], joins)
    decreases |filters|
  {
    if n == |filters| {
      assert filters[..n] == filters;
    } else {
      assert filters[..|filters| - 1][..n] == filters[..n];
      ConvertAllPrefix(f, index, filters[..|filters| - 1], joins, n);
    }
  }

  /** `resolvedQuery`. */
  class ResolvedQuery {
    var filter: Option<ColumnFilter>
    var order: seq<OrderKey>
    var filterJoins: seq<string>
    var orderJoins: seq<string>

    constructor ()
      ensures filter == None && order == [] && filterJoins == [] && orderJoins == []
    {
      filter, order, filterJoins, orderJoins := None, [], [], [];
    }

    /** `convertFilter`, with the joins appended to `filterJoins`. */
    method ConvertFilter(resolver: QueryFieldResolver, source: Filter)
      returns (result: Result<ColumnFilter, QueryError>)
      requires resolver.Valid()
      modifies this`filterJoins
      ensures var converted := Convert(resolver.simpleFold, resolver.fields, source, old(filterJoins));
              result == converted.result && filterJoins == converted.joins
      decreases source
    {
      hide FieldNamed, Indexed, Unicode;
      match source.kind {
        case NoKind =>
          if source.field != "" || source.fields != [] || source.operand != NO_OPERAND {
            return Err(TypeRequired);
          }
          return Ok(ColumnFilter(NoKind, "", NO_OPERAND, []));
        case Leaf(_) =>
          if source.fields != [] {
            return Err(ChildrenOnLeaf);
          }
          var q := resolver.Find(source.field);
          if q.None? {
            return Err(UnknownQueryField(source.field));
          }
          if q.value.relation != "" {
            filterJoins := AppendUnique(filterJoins, q.value.relation);
          }
          return Ok(ColumnFilter(source.kind, q.value.column, source.operand, []));
        case _ =>
          if source.field != "" {
            return Err(FieldOnConnective);
          }
          var fields := ConvertChildren(resolver, source.fields);
          return match fields
            case Ok(converted) => Ok(ColumnFilter(source.kind, "", source.operand, converted))
            case Err(e) => Err(e);
      }
    }

    /** The loop over a connective's children. */
    method ConvertChildren(resolver: QueryFieldResolver, children: seq<Filter>)
      returns (result: Result<seq<ColumnFilter>, QueryError>)
      requires resolver.Valid()
      modifies this`filterJoins
      ensures var converted := ConvertAll(resolver.simpleFold, resolver.fields, children, old(filterJoins));
              result == converted.result && filterJoins == converted.joins
      decreases children
    {
      hide Convert, Indexed, Unicode;
      var fields: seq<ColumnFilter> := [];
      for i := 0 to |children|
        invariant ConvertAll(resolver.simpleFold, resolver.fields, children[..i], old(filterJoins)) ==
          Converted(Ok(fields), filterJoins)
      {
        ghost var prefix := children[..i + 1];
        assert prefix[..i] == children[..i];
        if children[i].kind.NoKind? {
          ConvertAllPrefix(resolver.simpleFold, resolver.fields, children, old(filterJoins), i + 1);
          return Err(ChildNeedsType(i));
        }
        var converted := ConvertFilter(resolver, children[i]);
        if converted.Err? {
          ConvertAllPrefix(resolver.simpleFold, resolver.fields, children, old(filterJoins), i + 1);
          return Err(converted.error);
        }
        fields := fields + [converted.value];
      }
      assert children[..|children|] == children;
      return Ok(fields);
    }
  }

  // ----- which filters are accepted ------------------------------------------------------------

  ghost predicate Known(f: char -> char, index: map<string, QueryField>, name: string)
    requires Unicode(f)
  {
    FieldNamed(f, index, name).Some?
  }

  /** A filter with a type: a connective over typed filters without a field of its own, or an
      operator on a known field without children. */
  ghost predicate Typed(f: char -> char, index: map<string, QueryField>, filter: Filter)
    requires Unicode(f)
    decreases filter
  {
    match filter.kind
    case NoKind => false
    case Leaf(_) => filter.fields == [] && Known(f, index, filter.field)
    case _ => filter.field == "" && forall i :: 0 <= i < |filter.fields| ==> Typed(f, index, filter.fields[i])
  }

  /** The whole filter is absent, or it is typed throughout. */
  ghost predicate WellFormed(f: char -> char, index: map<string, QueryField>, filter: Filter)
    requires Unicode(f)
  {
    Typed(f, index, filter) || filter == Filter(NoKind, "", NO_OPERAND, [])
  }

  lemma {:induction false} ConvertsTyped(f: char -> char, index: map<string, QueryField>, filter: Filter,
                                         joins: seq<string>)
    requires Unicode(f) && !filter.kind.NoKind?
    ensures Convert(f, index, filter, joins).result.Ok? <==> Typed(f, index, filter)
    decreases filter, 1
  {
    hide FieldNamed;
    if !filter.kind.Leaf? {
      ConvertsAllTyped(f, index, filter.fields, joins);
    }
  }

  lemma {:induction false} ConvertsAllTyped(f: char -> char, index: map<string, QueryField>, filters: seq<Filter>,
                                            joins: seq<string>)
    requires Unicode(f)
    ensures ConvertAll(f, index, filters, joins).result.Ok? <==> forall i :: 0 <= i < |filters| ==>
      Typed(f, index, filters[i])
    decreases filters, 0
  {
    if filters != [] {
      var init, last := filters[..|filters| - 1], filters[|filters| - 1];
      ConvertsAllTyped(f, index, init, joins);
      if !last.kind.NoKind? {
        ConvertsTyped(f, index, last, ConvertAll(f, index, init, joins).joins);
      }
      hide Convert, Typed;
      assert forall i :: 0 <= i < |init| ==> filters[i] == init[i];
      assert Typed(f, index, last) ==> !last.kind.NoKind? by { TypedHasKind(f, index, last); }
    }
  }

  lemma TypedHasKind(f: char -> char, index: map<string, QueryField>, filter: Filter)
    requires Unicode(f)
    ensures Typed(f, index, filter) ==> !filter.kind.NoKind?
  {
  }

  /** A filter is accepted exactly when it is well-formed. */
  lemma AcceptsWellFormed(f: char -> char, index: map<string, QueryField>, filter: Filter, joins: seq<string>)
    requires Unicode(f)
    ensures Convert(f, index, filter, joins).result.Ok? <==> WellFormed(f, index, filter)
  {
    hide FieldNamed;
    if !filter.kind.NoKind? {
      ConvertsTyped(f, index, filter, joins);
    }
  }

  // ----- meaning -------------------------------------------------------------------------------

  datatype Tri = True | False | Unknown

  /** SQL's three-valued conjunction and disjunction. */
  function Conjunction(ts: seq<Tri>): Tri {
    if False in ts then False else if Unknown in ts then Unknown else True
  }

  function Disjunction(ts: seq<Tri>): Tri {
    if True in ts then True else if Unknown in ts then Unknown else False
  }

  function Negation(t: Tri): Tri {
    match t
    case True => False
    case False => True
    case Unknown => Unknown
  }

  /** How SQLC reads a leaf operator on a cell, whatever it is. `not` negates the conjunction of
      its children. */
  type LeafMeaning<!V> = (string, Operand, V) -> Tri

  function Connect(kind: Kind, ts: seq<Tri>): Tri {
    match kind
    case Or => Disjunction(ts)
    case Not => Negation(Conjunction(ts))
    case _ => Conjunction(ts)
  }

  /** The truth of a column filter on a row, given the value of each qualified column. */
  function EvalColumns<V>(leaf: LeafMeaning<V>, filter: ColumnFilter, cells: string -> V): Tri {
    match filter.kind
    case NoKind => True
    case Leaf(op) => leaf(op, filter.operand, cells(filter.column))
    case _ => Connect(filter.kind, EvalColumnsAll(leaf, filter.fields, cells))
  }

  function EvalColumnsAll<V>(leaf: LeafMeaning<V>, filters: seq<ColumnFilter>, cells: string -> V): seq<Tri> {
    if filters == [] then []
    else EvalColumnsAll(leaf, filters[..|filters| - 1], cells) + [EvalColumns(leaf, filters[|filters| - 1], cells)]
  }

  /** The truth of a public filter on a row, given the value of each public field. */
  function EvalPublic<V>(leaf: LeafMeaning<V>, filter: Filter, row: string -> V): Tri {
    match filter.kind
    case NoKind => True
    case Leaf(op) => leaf(op, filter.operand, row(filter.field))
    case _ => Connect(filter.kind, EvalPublicAll(leaf, filter.fields, row))
  }

  function EvalPublicAll<V>(leaf: LeafMeaning<V>, filters: seq<Filter>, row: string -> V): seq<Tri> {
    if filters == [] then []
    else EvalPublicAll(leaf, filters[..|filters| - 1], row) + [EvalPublic(leaf, filters[|filters| - 1], row)]
  }

  /** `row` is the row of `cells` seen through the field mapping. */
  ghost predicate SeenThrough<V(!new)>(f: char -> char, index: map<string, QueryField>, row: string -> V,
                                       cells: string -> V)
    requires Unicode(f)
  {
    forall name :: Known(f, index, name) ==> row(name) == cells(FieldNamed(f, index, name).value.column)
  }

  /** The converted filter is true, false or unknown on a row exactly as the public filter is on
      the row seen through the field mapping. */
  lemma {:induction false} ConversionPreservesMeaning<V(!new)>(f: char -> char, index: map<string, QueryField>,
        filter: Filter, joins: seq<string>, leaf: LeafMeaning<V>, row: string -> V, cells: string -> V)
    requires Unicode(f) && SeenThrough(f, index, row, cells)
    requires Convert(f, index, filter, joins).result.Ok?
    ensures EvalColumns(leaf, Convert(f, index, filter, joins).result.value, cells) == EvalPublic(leaf, filter, row)
    decreases filter, 1
  {
    hide FieldNamed;
    if filter.kind.Leaf? {
      assert Known(f, index, filter.field);
    } else if !filter.kind.NoKind? {
      ConversionsPreserveMeaning(f, index, filter.fields, joins, leaf, row, cells);
    }
  }

  lemma {:induction false} ConversionsPreserveMeaning<V(!new)>(f: char -> char, index: map<string, QueryField>,
        filters: seq<Filter>, joins: seq<string>, leaf: LeafMeaning<V>, row: string -> V, cells: string -> V)
    requires Unicode(f) && SeenThrough(f, index, row, cells)
    requires ConvertAll(f, index, filters, joins).result.Ok?
    ensures EvalColumnsAll(leaf, ConvertAll(f, index, filters, joins).result.value, cells) ==
      EvalPublicAll(leaf, filters, row)
    decreases filters, 0
  {
    if filters != [] {
      var init, last := filters[..|filters| - 1], filters[|filters| - 1];
      var before := ConvertAll(f, index, init, joins);
      ConversionsPreserveMeaning(f, index, init, joins, leaf, row, cells);
      ConversionPreservesMeaning(f, index, last, before.joins, leaf, row, cells);
      hide EvalColumns, EvalPublic, Convert, SeenThrough;
      var c := Convert(f, index, last, before.joins).result.value;
      assert (before.result.value + [c])[..|before.result.value|] == before.result.value;
    }
  }

  // ----- scope ---------------------------------------------------------------------------------

  ghost function LeafColumns(filter: ColumnFilter): set<string>
    decreases filter
  {
    if filter.kind.Leaf? then {filter.column}
    else set i, c | 0 <= i < |filter.fields| && c in LeafColumns(filter.fields[i]) :: c
  }

  /** The relations whose fields a filter names. */
  ghost function Relations(f: char -> char, index: map<string, QueryField>, filter: Filter): set<string>
    requires Unicode(f)
    decreases filter
  {
    match filter.kind
    case NoKind => {}
    case Leaf(_) =>
      (match FieldNamed(f, index, filter.field)
       case Some(q) => if q.relation == "" then {} else {q.relation}
       case None => {})
    case _ => set i, r | 0 <= i < |filter.fields| && r in Relations(f, index, filter.fields[i]) :: r
  }

  ghost predicate NoDuplicates(s: seq<string>) {
    forall i, j :: 0 <= i < j < |s| ==> s[i] != s[j]
  }

  /** A column qualified by the base table or by one of the joined relations. */
  ghost predicate InScope(table: string, relations: seq<string>, column: string) {
    exists q: QueryField :: Qualified(table, q) && q.column == column && (q.relation == "" || q.relation in relations)
  }

  ghost predicate IndexQualified(table: string, index: map<string, QueryField>) {
    forall key :: key in index ==> Qualified(table, index[key])
  }

  lemma InScopeMonotone(table: string, a: seq<string>, b: seq<string>, column: string)
    requires InScope(table, a, column) && forall r :: r in a ==> r in b
    ensures InScope(table, b, column)
  {
  }

  /** The joins grow by exactly the relations the filter names, without repetition, and then every
      leaf column is in scope. */
  lemma {:induction false} ConversionIsScoped(table: string, f: char -> char, index: map<string, QueryField>,
                                              filter: Filter, joins: seq<string>)
    requires Unicode(f) && IndexQualified(table, index) && NoDuplicates(joins)
    requires Convert(f, index, filter, joins).result.Ok?
    ensures var converted := Convert(f, index, filter, joins);
            && NoDuplicates(converted.joins)
            && (forall r :: r in converted.joins <==> r in joins || r in Relations(f, index, filter))
            && forall c :: c in LeafColumns(converted.result.value) ==> InScope(table, converted.joins, c)
    decreases filter, 1
  {
    hide Qualified, Fold;
    match filter.kind {
      case NoKind =>
      case Leaf(_) =>
        var q := FieldNamed(f, index, filter.field).value;
        assert Qualified(table, q);
      case _ => ConversionsAreScoped(table, f, index, filter.fields, joins);
    }
  }

  lemma {:induction false} ConversionsAreScoped(table: string, f: char -> char, index: map<string, QueryField>,
        filters: seq<Filter>, joins: seq<string>)
    requires Unicode(f) && IndexQualified(table, index) && NoDuplicates(joins)
    requires ConvertAll(f, index, filters, joins).result.Ok?
    ensures var converted := ConvertAll(f, index, filters, joins);
            && |converted.result.value| == |filters| && NoDuplicates(converted.joins)
            && (forall r :: r in converted.joins <==>
                  r in joins || exists i :: 0 <= i < |filters| && r in Relations(f, index, filters[i]))
            && forall i, c :: 0 <= i < |filters| && c in LeafColumns(converted.result.value[i]) ==>
              InScope(table, converted.joins, c)
    decreases filters, 0
  {
    if filters != [] {
      var init, last := filters[..|filters| - 1], filters[|filters| - 1];
      ConversionsAreScoped(table, f, index, init, joins);
      var before := ConvertAll(f, index, init, joins);
      ConversionIsScoped(table, f, index, last, before.joins);
      hide InScope, LeafColumns, Relations, Convert;
      var converted := ConvertAll(f, index, filters, joins);
      forall i, c | 0 <= i < |filters| && c in LeafColumns(converted.result.value[i])
        ensures InScope(table, converted.joins, c) {
        if i < |init| {
          InScopeMonotone(table, before.joins, converted.joins, c);
        }
      }
      forall r ensures r in converted.joins <==>
        r in joins || exists i :: 0 <= i < |filters| && r in Relations(f, index, filters[i]) {
        assert (exists i :: 0 <= i < |filters| && r in Relations(f, index, filters[i])) <==>
          r in Relations(f, index, last) || exists i :: 0 <= i < |init| && r in Relations(f, index, init[i]) by {
          assert filters[|init|] == last && forall i :: 0 <= i < |init| ==> filters[i] == init[i];
        }
      }
    }
  }

  // ----- resolving a request ---------------------------------------------------------------------

  /** `JsonOrder`, over public names. */
  datatype OrderRequest = OrderRequest(field: string, direction: string)

  /** What SQLC accepts: a column filter, and a direction. */
  datatype Sqlc = Sqlc(accepts: ColumnFilter -> bool, direction: string -> bool)

  ghost predicate OrderAccepted(f: char -> char, index: map<string, QueryField>, sqlc: Sqlc, key: OrderRequest)
    requires Unicode(f)
  {
    Known(f, index, key.field) && sqlc.direction(key.direction)
  }

  ghost predicate RequestAccepted(f: char -> char, index: map<string, QueryField>, sqlc: Sqlc, filter: Filter,
                                  order: seq<OrderRequest>)
    requires Unicode(f)
  {
    && WellFormed(f, index, filter)
    && (AcceptsWellFormed(f, index, filter, []); sqlc.accepts(Convert(f, index, filter, []).result.value))
    && forall i :: 0 <= i < |order| ==> OrderAccepted(f, index, sqlc, order[i])
  }

  /** The relation an order key needs, if any. */
  ghost predicate Orders(f: char -> char, index: map<string, QueryField>, order: seq<OrderRequest>, relation: string)
    requires Unicode(f)
  {
    && relation != ""
    && exists i ::
      && 0 <= i < |order| && Known(f, index, order[i].field)
      && FieldNamed(f, index, order[i].field).value.relation == relation
  }

  /** The ORDER BY keys are those of the order requests, in sequence, and the joins those that only they need. */
  ghost predicate OrderResolved(f: char -> char, index: map<string, QueryField>, order: seq<OrderRequest>,
                                keys: seq<OrderKey>, filterJoins: seq<string>, orderJoins: seq<string>)
    requires Unicode(f)
  {
    && |keys| == |order|
    && (forall i :: 0 <= i < |order| ==>
          && Known(f, index, order[i].field)
          && keys[i] == OrderKey(FieldNamed(f, index, order[i].field).value.column, order[i].direction))
    && NoDuplicates(orderJoins)
    && forall r :: r in orderJoins <==> r !in filterJoins && Orders(f, index, order, r)
  }

  lemma OrderResolvedNone(f: char -> char, index: map<string, QueryField>)
    requires Unicode(f)
    ensures forall filterJoins :: OrderResolved(f, index, [], [], filterJoins, [])
  {
  }

  lemma OrderResolvedAdd(f: char -> char, index: map<string, QueryField>, order: seq<OrderRequest>, key: OrderRequest,
                         keys: seq<OrderKey>, filterJoins: seq<string>, orderJoins: seq<string>)
    requires Unicode(f) && OrderResolved(f, index, order, keys, filterJoins, orderJoins) && Known(f, index, key.field)
    ensures var q := FieldNamed(f, index, key.field).value;
            OrderResolved(f, index, order + [key], keys + [OrderKey(q.column, key.direction)], filterJoins,
              if q.relation != "" && q.relation !in filterJoins then AppendUnique(orderJoins, q.relation)
                else orderJoins)
  {
    hide FieldNamed;
    var q := FieldNamed(f, index, key.field).value;
    var more := order + [key];
    forall r ensures Orders(f, index, more, r) <==> Orders(f, index, order, r) || (r != "" && r == q.relation) {
      if Orders(f, index, order, r) {
        var i :| 0 <= i < |order| && Known(f, index, order[i].field)
          && FieldNamed(f, index, order[i].field).value.relation == r;
        assert more[i] == order[i];
      }
      assert more[|order|] == key;
    }
  }

  /** `resolve`: succeeds exactly when the filter is well-formed, SQLC accepts the converted filter
      and the directions, and every order key is a known field. */
  method Resolve(resolver: QueryFieldResolver, sqlc: Sqlc, filter: Filter, order: seq<OrderRequest>)
    returns (query: ResolvedQuery, error: Option<QueryError>)
    requires resolver.Valid()
    ensures fresh(query)
    ensures error.None? <==> RequestAccepted(resolver.simpleFold, resolver.fields, sqlc, filter, order)
    ensures error.None? ==>
      var converted := Convert(resolver.simpleFold, resolver.fields, filter, []);
      && converted.result.Ok?
      && query.filter == (if converted.result.value.kind.NoKind? then None else Some(converted.result.value))
      && query.filterJoins == converted.joins
      && OrderResolved(resolver.simpleFold, resolver.fields, order, query.order, query.filterJoins, query.orderJoins)
  {
    hide Unicode, Convert, WellFormed, FieldNamed, OrderResolved, Indexed;
    OrderResolvedNone(resolver.simpleFold, resolver.fields);
    query := new ResolvedQuery();
    AcceptsWellFormed(resolver.simpleFold, resolver.fields, filter, []);
    var converted := query.ConvertFilter(resolver, filter);
    if converted.Err? {
      return query, Some(converted.error);
    }
    if !sqlc.accepts(converted.value) {
      return query, Some(BadFilter);
    }
    query.filter := if converted.value.kind.NoKind? then None else Some(converted.value);
    for i := 0 to |order|
      invariant query.filter == if converted.value.kind.NoKind? then None else Some(converted.value)
      invariant query.filterJoins == Convert(resolver.simpleFold, resolver.fields, filter, []).joins
      invariant forall k :: 0 <= k < i ==> OrderAccepted(resolver.simpleFold, resolver.fields, sqlc, order[k])
      invariant OrderResolved(resolver.simpleFold, resolver.fields, order[..i], query.order, query.filterJoins,
        query.orderJoins)
    {
      var found := resolver.Find(order[i].field);
      if found.None? {
        return query, Some(UnknownQueryField(order[i].field));
      }
      var field := found.value;
      if !sqlc.direction(order[i].direction) {
        return query, Some(BadOrder(i));
      }
      OrderResolvedAdd(resolver.simpleFold, resolver.fields, order[..i], order[i], query.order, query.filterJoins,
        query.orderJoins);
      assert order[..i + 1] == order[..i] + [order[i]];
      query.order := query.order + [OrderKey(field.column, order[i].direction)];
      if field.relation != "" && field.relation !in query.filterJoins {
        query.orderJoins := AppendUnique(query.orderJoins, field.relation);
      }
    }
    assert order[..|order|] == order;
    error := None;
  }

  /** What the resolver constructors promise of their fields is what the lemmas here assume of an index. */
  lemma RegisteredQualified(table: string, f: char -> char, index: map<string, QueryField>,
                            registered: seq<(string, QueryField)>)
    requires Unicode(f) && Indexed(f, index, registered) && AllQualified(table, registered)
    ensures IndexQualified(table, index)
  {
  }

  /** Generated queries are well-scoped: WHERE columns belong to the base table or to a filter join,
      ORDER BY columns to the base table or to either kind of join; the two join lists together
      have no duplicates, and hold exactly the relations used. */
  lemma QueriesAreScoped(table: string, f: char -> char, index: map<string, QueryField>, filter: Filter,
                         order: seq<OrderRequest>, keys: seq<OrderKey>, orderJoins: seq<string>)
    requires Unicode(f) && IndexQualified(table, index) && WellFormed(f, index, filter)
    requires OrderResolved(f, index, order, keys, Convert(f, index, filter, []).joins, orderJoins)
    ensures var converted := Convert(f, index, filter, []);
            && converted.result.Ok?
            && (forall c :: c in LeafColumns(converted.result.value) ==> InScope(table, converted.joins, c))
            && (forall i :: 0 <= i < |keys| ==> InScope(table, converted.joins + orderJoins, keys[i].column))
            && NoDuplicates(converted.joins + orderJoins)
            && (forall r :: r in converted.joins <==> r in Relations(f, index, filter))
            && (forall r :: r in converted.joins + orderJoins <==>
              r in Relations(f, index, filter) || Orders(f, index, order, r))
  {
    hide Convert, WellFormed, Fold, Qualified, LeafColumns, Relations;
    AcceptsWellFormed(f, index, filter, []);
    ConversionIsScoped(table, f, index, filter, []);
    var filterJoins := Convert(f, index, filter, []).joins;
    forall i | 0 <= i < |keys| ensures InScope(table, filterJoins + orderJoins, keys[i].column) {
      var q := FieldNamed(f, index, order[i].field).value;
      assert Qualified(table, q);
      assert q.relation != "" ==> Orders(f, index, order, q.relation);
    }
    NoDuplicatesAppend(filterJoins, orderJoins);
  }

  lemma NoDuplicatesAppend(a: seq<string>, b: seq<string>)
    requires NoDuplicates(a) && NoDuplicates(b) && forall x :: x in b ==> x !in a
    ensures NoDuplicates(a + b)
  {
    forall i, j | 0 <= i < j < |a + b| ensures (a + b)[i] != (a + b)[j] {
      if i < |a| <= j {
        assert a[i] in a && b[j - |a|] in b;
      } else if |a| <= i {
        assert (a + b)[i] == b[i - |a|] && (a + b)[j] == b[j - |a|];
      }
    }
  }

  /** `applyFilters`; `meaning` turns an expression into the condition SQL evaluates. */
  method ApplyFilters<T>(query: ResolvedQuery, meaning: ColumnFilter -> (T -> bool), qb: QueryBuilderSelect<T>)
    modifies qb
    ensures qb.state == FiltersApplied(old(qb.state), query.filterJoins, query.filter, meaning)
  {
    for i := 0 to |query.filterJoins|
      invariant qb.state == old(qb.state).(joins := old(qb.state).joins + DefaultJoins(query.filterJoins[..i]))
    {
      assert DefaultJoins(query.filterJoins[..i + 1]) ==
        DefaultJoins(query.filterJoins[..i]) + [Join(query.filterJoins[i], LeftJoin, false)];
      qb.DefaultJoin(LeftJoin, query.filterJoins[i]);
    }
    assert query.filterJoins[..|query.filterJoins|] == query.filterJoins;
    if query.filter.Some? {
      qb.Where(meaning(query.filter.value));
    } else {
      assert qb.state.wheres + [] == qb.state.wheres;
    }
  }

  function FiltersApplied<T>(s: Select<T>, joins: seq<string>, filter: Option<ColumnFilter>,
                             meaning: ColumnFilter -> (T -> bool)): Select<T>
  {
    s.(joins := s.joins + DefaultJoins(joins),
       wheres := s.wheres + if filter.Some? then [meaning(filter.value)] else [])
  }

  function OrderApplied<T>(s: Select<T>, joins: seq<string>, order: seq<OrderKey>): Select<T> {
    s.(joins := s.joins + DefaultJoins(joins), order := s.order + order)
  }

  /** `applyOrder`. */
  method ApplyOrder<T>(query: ResolvedQuery, qb: QueryBuilderSelect<T>)
    modifies qb
    ensures qb.state == OrderApplied(old(qb.state), query.orderJoins, query.order)
  {
    for i := 0 to |query.orderJoins|
      invariant qb.state == old(qb.state).(joins := old(qb.state).joins + DefaultJoins(query.orderJoins[..i]))
    {
      assert DefaultJoins(query.orderJoins[..i + 1]) ==
        DefaultJoins(query.orderJoins[..i]) + [Join(query.orderJoins[i], LeftJoin, false)];
      qb.DefaultJoin(LeftJoin, query.orderJoins[i]);
    }
    assert query.orderJoins[..|query.orderJoins|] == query.orderJoins;
    if |query.order| > 0 {
      qb.OrderBy(query.order);
    } else {
      assert qb.state.order + query.order == qb.state.order;
    }
  }
}
