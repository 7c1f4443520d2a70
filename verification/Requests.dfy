/** Query requests: what a sequence of setter calls on a query object amounts to (src/query.rs). */
module Requests {
  import opened Basics
  import opened Exprs
  import opened Objects

  datatype Filter = NoFilter | Sql(text: string) | DataFusion(expr: Expr)

  /** The request handed to the library. */
  datatype Request = Request(
    table: TableId,
    vector: Option<Vector>,
    column: Option<string>,
    limit: Option<nat>,
    offset: Option<nat>,
    select: Option<seq<string>>,
    filter: Filter,
    distanceType: Option<DistanceType>,
    nprobes: Option<nat>,
    refineFactor: Option<nat>,
    ef: Option<nat>)

  /** `table.query()`. */
  function NewRequest(table: TableId): Request {
    Request(table, None, None, None, None, None, NoFilter, None, None, None, None)
  }

  function NewFields(table: TableId, vector: Option<Vector>): QueryFields {
    QueryFields(table, vector, None, None, None, None, None, None, None, None, None)
  }

  /** An accepted setter call. */
  datatype Setting =
    | Limit(n: nat)
    | Offset(n: nat)
    | Select(columns: seq<string>)
    | Where(text: string)
    | DfFilter(expr: Expr)
    | SearchColumn(name: string)
    | Distance(d: DistanceType)
    | Nprobes(n: nat)
    | RefineFactor(n: nat)
    | Ef(n: nat)

  /** A setter call as the caller sees it: accepted with a value, or rejected because of its arguments. */
  datatype SetterCall = Accepted(setting: Setting) | Rejected

  datatype QueryState = QueryState(fields: QueryFields, dfFilter: Option<Expr>)

  function Apply(q: QueryState, s: Setting): QueryState {
    match s
    case Limit(n) => q.(fields := q.fields.(limit := Some(n)))
    case Offset(n) => q.(fields := q.fields.(offset := Some(n)))
    case Select(columns) => q.(fields := q.fields.(select := Some(columns)))
    case Where(text) => q.(fields := q.fields.(filter := Some(text)))
    case DfFilter(e) => q.(dfFilter := Some(e))
    case SearchColumn(name) => q.(fields := q.fields.(column := Some(name)))
    case Distance(d) => q.(fields := q.fields.(distanceType := Some(d)))
    case Nprobes(n) => q.(fields := q.fields.(nprobes := Some(n)))
    case RefineFactor(n) => q.(fields := q.fields.(refineFactor := Some(n)))
    case Ef(n) => q.(fields := q.fields.(ef := Some(n)))
  }

  /** The query object after a history of setter calls. */
  function After(q: QueryState, calls: seq<SetterCall>): QueryState {
    if calls == [] then q
    else
      var before, last := After(q, calls[..|calls| - 1]), calls[|calls| - 1];
      if last.Accepted? then Apply(before, last.setting) else before
  }

  /** The value of the last accepted call that sets what `pick` looks at. */
  function Last<T>(calls: seq<SetterCall>, pick: Setting -> Option<T>): Option<T> {
    if calls == [] then None
    else
      var last := calls[|calls| - 1];
      if last.Accepted? && pick(last.setting).Some? then pick(last.setting) else Last(calls[..|calls| - 1], pick)
  }

  function PickLimit(s: Setting): Option<nat> { if s.Limit? then Some(s.n) else None }
  function PickOffset(s: Setting): Option<nat> { if s.Offset? then Some(s.n) else None }
  function PickSelect(s: Setting): Option<seq<string>> { if s.Select? then Some(s.columns) else None }
  function PickWhere(s: Setting): Option<string> { if s.Where? then Some(s.text) else None }
  function PickDfFilter(s: Setting): Option<Expr> { if s.DfFilter? then Some(s.expr) else None }
  function PickColumn(s: Setting): Option<string> { if s.SearchColumn? then Some(s.name) else None }
  function PickDistance(s: Setting): Option<DistanceType> { if s.Distance? then Some(s.d) else None }
  function PickNprobes(s: Setting): Option<nat> { if s.Nprobes? then Some(s.n) else None }
  function PickRefineFactor(s: Setting): Option<nat> { if s.RefineFactor? then Some(s.n) else None }
  function PickEf(s: Setting): Option<nat> { if s.Ef? then Some(s.n) else None }

  /** The request written down from the history alone: for each field, the last accepted value. */
  function FromHistory(table: TableId, vector: Option<Vector>, calls: seq<SetterCall>): Request {
    var df, sql := Last(calls, PickDfFilter), Last(calls, PickWhere);
    Request(table, vector, Last(calls, PickColumn), Last(calls, PickLimit), Last(calls, PickOffset),
            Last(calls, PickSelect),
            if df.Some? then DataFusion(df.value) else if sql.Some? then Sql(sql.value) else NoFilter,
            Last(calls, PickDistance), Last(calls, PickNprobes), Last(calls, PickRefineFactor), Last(calls, PickEf))
  }

  function FilterOf(fields: QueryFields, dfFilter: Option<Expr>): Filter {
    if dfFilter.Some? then DataFusion(dfFilter.value)
    else if fields.filter.Some? then Sql(fields.filter.value) else NoFilter
  }

  /**
   lancedb_query_execute and lancedb_vector_query_execute fold the fields into a request one by one.
   `RequestOf` is what they must arrive at.
   */
  function RequestOf(q: QueryState): Request {
    Request(q.fields.table, q.fields.vector, q.fields.column, q.fields.limit, q.fields.offset, q.fields.select,
            FilterOf(q.fields, q.dfFilter), q.fields.distanceType, q.fields.nprobes, q.fields.refineFactor, q.fields.ef)
  }

  method BuildRequest(fields: QueryFields, dfFilter: Option<Expr>) returns (request: Request)
    ensures request == RequestOf(QueryState(fields, dfFilter))
  {
    request := NewRequest(fields.table);
    if fields.vector.Some? {
      request := request.(vector := fields.vector);
    }
    if fields.column.Some? {
      request := request.(column := fields.column);
    }
    request := AddCommonFields(request, fields, dfFilter);
    request := AddSearchFields(request, fields);
  }

  /** The fields that plain and vector queries share. */
  method AddCommonFields(base: Request, fields: QueryFields, dfFilter: Option<Expr>) returns (request: Request)
    requires base.limit == base.offset == None && base.select == None && base.filter == NoFilter
    ensures request == base.(limit := fields.limit, offset := fields.offset, select := fields.select,
                             filter := FilterOf(fields, dfFilter))
  {
    request := base;
    if fields.limit.Some? {
      request := request.(limit := fields.limit);
    }
    if fields.offset.Some? {
      request := request.(offset := fields.offset);
    }
    if fields.select.Some? {
      request := request.(select := fields.select);
    }
    if dfFilter.Some? {
      request := request.(filter := DataFusion(dfFilter.value));
    } else if fields.filter.Some? {
      request := request.(filter := Sql(fields.filter.value));
    }
  }

  /** The fields that only vector queries have. */
  method AddSearchFields(base: Request, fields: QueryFields) returns (request: Request)
    requires base.distanceType == None && base.nprobes == base.refineFactor == base.ef == None
    ensures request == base.(distanceType := fields.distanceType, nprobes := fields.nprobes,
                             refineFactor := fields.refineFactor, ef := fields.ef)
  {
    request := base;
    if fields.distanceType.Some? {
      request := request.(distanceType := fields.distanceType);
    }
    if fields.nprobes.Some? {
      request := request.(nprobes := fields.nprobes);
    }
    if fields.refineFactor.Some? {
      request := request.(refineFactor := fields.refineFactor);
    }
    if fields.ef.Some? {
      request := request.(ef := fields.ef);
    }
  }

  /**
   Last write wins, field by field: whatever the interleaving of accepted and rejected setter calls,
   the request executed is the one read off the history, and a DataFusion filter beats any SQL filter.
   */
  lemma {:induction false} LastWriteWins(table: TableId, vector: Option<Vector>, calls: seq<SetterCall>)
    ensures RequestOf(After(QueryState(NewFields(table, vector), None), calls)) == FromHistory(table, vector, calls)
  {
    EveryFieldIsTheLastWritten(table, vector, calls);
  }

  lemma {:induction false} EveryFieldIsTheLastWritten(table: TableId, vector: Option<Vector>, calls: seq<SetterCall>)
    ensures var q := After(QueryState(NewFields(table, vector), None), calls);
            && q.fields == QueryFields(table, vector, Last(calls, PickColumn), Last(calls, PickLimit),
                                       Last(calls, PickOffset),
                 Last(calls, PickSelect), Last(calls, PickWhere), Last(calls, PickDistance), Last(calls, PickNprobes),
                 Last(calls, PickRefineFactor), Last(calls, PickEf))
            && q.dfFilter == Last(calls, PickDfFilter)
  {
    if calls != [] {
      EveryFieldIsTheLastWritten(table, vector, calls[..|calls| - 1]);
    }
  }

  /** lancedb_table_nearest_to sets the limit before the vector; the vector-query path does it the other way round. */
  method NearestToRequest(table: TableId, vector: Vector, limit: nat, column: Option<string>) returns (request: Request)
    requires limit > 0
    ensures request == RequestOf(After(QueryState(NewFields(table, Some(vector)), None),
                         (if column.Some? then [Accepted(SearchColumn(column.value))] else [])
                           + [Accepted(Limit(limit))]))
    ensures request == Request(table, Some(vector), column, Some(limit), None, None, NoFilter, None, None, None, None)
  {
    request := NewRequest(table);
    request := request.(limit := Some(limit));
    request := request.(vector := Some(vector));
    if column.Some? {
      request := request.(column := column);
    }
    ghost var setColumn := if column.Some? then [Accepted(SearchColumn(column.value))] else [];
    ghost var calls := setColumn + [Accepted(Limit(limit))];
    ghost var q := QueryState(NewFields(table, Some(vector)), None);
    assert calls[..|calls| - 1] == setColumn;
    assert After(q, setColumn) == if column.Some? then Apply(q, SearchColumn(column.value)) else q by {
      assert setColumn != [] ==> setColumn[..0] == [];
    }
  }
}
