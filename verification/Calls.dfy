/**
 The C API as a state machine: the calls a program can make, when a call is legal, and what it does to
 the handles the program holds. Library outcomes are part of a call, so every outcome is possible.
 */
module Calls {
  import opened Basics
  import opened Exprs
  import opened Objects
  import opened Messages
  import opened Errors
  import opened ExprApi
  import opened JsonExprApi
  import opened JsonMatches
  import opened Requests
  import opened QueryApi
  import opened Marshal
  import opened VersionApi
  import opened TableApi
  import opened MetadataApi
  import opened ConnectionApi
  import Map = MetadataMap

  /** What the program holds: a meaning for each live handle. */
  type View = map<Ptr, Object>

  /** The state between two calls: the program's handles, and the metadata in the datasets of its tables. */
  datatype State = State(view: View, datasets: Datasets)

  datatype ExprCall =
    | MakeColumn(name: CArg)
    | MakeString(text: CArg)
    | MakeLiteral(value: Scalar)
    | MakeBinary(left: Ptr, op: BinaryOp, right: Ptr)
    | MakeAnd(left: Ptr, right: Ptr)
    | MakeOr(left: Ptr, right: Ptr)
    | MakeNot(arg: Ptr)
    | MakeIsNull(arg: Ptr)
    | MakeIsNotNull(arg: Ptr)
    | MakeInList(expr: Ptr, list: Option<seq<Ptr>>, negated: bool, slot: bool)
    | MakeArrayHas(left: Ptr, right: Ptr, slot: bool)
    | MakeJson(fn: Fn, json: Ptr, path: Option<seq<CArg>>)
    | MakeJsonArrayHas(json: Ptr, path: Option<seq<CArg>>, sought: Ptr, quote: bool)
    | Clone(expr: Ptr)

  datatype QueryCall =
    | NewQuery(table: Ptr, wantsVector: bool, vector: Option<Vector>)
    | Number(q: Ptr, setting: Setting, slot: bool)
    | TextField(q: Ptr, text: CArg, isFilter: bool, slot: bool)
    | Columns(q: Ptr, columns: Option<seq<CArg>>, slot: bool)
    | ExprFilter(q: Ptr, expr: Ptr, slot: bool)
    | Execute(q: Ptr, outcome: Result<Stream, LibError>)
    | ToArrow(result: Ptr, hasOutputs: bool, schemaError: Option<string>, grant: bool, slot: bool)
    | Matches(arrays: Ptr, hasSchema: bool, rows: nat, expr: Ptr, hasResults: bool, hasCount: bool, slot: bool,
              engine: nat, grant: bool)

  datatype TableCall =
    | FromArrow(data: Ptr, hasSchema: bool, hasOut: bool, badSchema: Option<Failure>, badArray: Option<Failure>,
                slot: bool)
    | Add(table: Ptr, reader: Ptr, result: Option<Failure>, slot: bool)
    | MergeInsert(table: Ptr, reader: Ptr, on: Option<seq<CArg>>, config: Option<MergeConfig>, result: Option<Failure>,
                  slot: bool)
    | DfDelete(table: Ptr, expr: Ptr, result: Option<Failure>, slot: bool)
    | Nearest(table: Ptr, vector: Option<Vector>, limit: nat, column: CArg, hasOutputs: bool, slot: bool,
              found: Result<seq<Batch>, Failure>, schemaFails: bool, grant: bool)
    | Metadata(table: Ptr, filter: FilterArg, hasOutputs: bool, backend: Backend, grants: (bool, bool), slot: bool)
    | ChangeEntries(table: Ptr, change: Map.MetadataCall, backend: Backend, slot: bool)
    | Indices(table: Ptr, hasOutputs: bool, names: Result<seq<string>, Failure>, grant: bool, slot: bool)
    | Versions(table: Ptr, hasOutputs: bool, wantMetadata: bool, versions: Result<seq<VersionRecord>, Failure>,
               refused: Refused, slot: bool)

  datatype ConnectionCall =
    | NewBuilder(uri: CArg)
    | AddOption(builder: Ptr, key: CArg, value: CArg)
    | UseSession(builder: Ptr, session: Ptr)
    | Open(builder: Ptr, hasOut: bool, connected: Result<nat, Failure>, slot: bool)
    | NewRegistry(defaults: Providers)
    | NewSession(registry: Ptr, defaults: Providers)
    | Insert(registry: Ptr, scheme: CArg, provider: Ptr, slot: bool)
    | CreateTable(connection: Ptr, name: CArg, hasSchema: bool, reader: Ptr, hasOut: bool, schemaError: Option<string>,
                  nameError: Option<Failure>, table: Result<TableId, Failure>, slot: bool, stored: Map.Entries)
    | OpenTableCall(connection: Ptr, name: CArg, hasOut: bool, table: Result<TableId, Failure>, slot: bool,
                    stored: Map.Entries)
    | Names(connection: Ptr, hasOutputs: bool, parent: CArg, names: Result<seq<string>, Failure>, grant: bool,
            slot: bool)
    | NewNames(connection: Ptr)
    | NamesPage(builder: Ptr, page: Page)
    | NamesRun(builder: Ptr, hasOutputs: bool, names: Result<seq<string>, Failure>, grant: bool, slot: bool)

  /** The free functions; `Host` stands for resources the program itself provides (Arrow buffers, providers). */
  datatype MemoryCall =
    | Host(leaf: Leaf)
    | FreeBox(p: Ptr)
    | FreeText(p: Ptr)
    | FreeList(list: Ptr, count: nat)
    | FreeArrows(list: Ptr, count: nat)
    | FreeMatches(results: Ptr)
    | FreeVersionList(versions: Ptr)
    | FreeVersionExtras(extras: Ptr, count: nat)
    | FreePairs(keys: Ptr, values: Ptr, count: nat)

  datatype Call =
    | Exprs(e: ExprCall)
    | Queries(q: QueryCall)
    | Tables(t: TableCall)
    | Connections(c: ConnectionCall)
    | Frees(m: MemoryCall)

  /** What the program sees of a call: the value returned and what was written to its out-pointers. */
  datatype Reply =
    | Handle(p: Ptr, msg: Message)
    | Setter(code: ErrorCode, msg: Message)
    | Executed(p: Ptr, request: Option<Request>)
    | Arrows(arrow: ArrowReply, text: string, request: Option<Request>)
    | Flags(matches: MatchesReply)
    | Plain(status: Status)
    | Out(status: Status, out: Option<Ptr>)
    | Listed(list: ListReply)
    | VersionsGot(versions: VersionsReply)
    | MetadataGot(pairs: MetadataReply)
    | Freed

  /* ---------- expressions ---------- */

  /** The handles an expression call consumes, whether or not it succeeds. */
  ghost function Consumed(call: ExprCall): set<Ptr> {
    match call
    case MakeBinary(l, _, r) => {l, r}
    case MakeAnd(l, r) => {l, r}
    case MakeOr(l, r) => {l, r}
    case MakeNot(a) => {a}
    case MakeIsNull(a) => {a}
    case MakeIsNotNull(a) => {a}
    case MakeInList(e, list, _, _) => SetOf(InListConsumed(e, list))
    case MakeArrayHas(l, r, _) => {l, r}
    case MakeJson(_, j, _) => {j}
    case MakeJsonArrayHas(j, _, v, _) => {j, v}
    case _ => {}
  }

  /** Whether the call yields an expression. */
  predicate Yields(call: ExprCall) {
    match call
    case MakeColumn(name) => name.Text?
    case MakeString(text) => text.Text?
    case MakeLiteral(_) => true
    case MakeBinary(l, _, r) => l != NULL && r != NULL
    case MakeAnd(l, r) => l != NULL && r != NULL
    case MakeOr(l, r) => l != NULL && r != NULL
    case MakeNot(a) => a != NULL
    case MakeIsNull(a) => a != NULL
    case MakeIsNotNull(a) => a != NULL
    case MakeInList(e, list, _, _) => e != NULL && list.Some? && NULL !in list.value
    case MakeArrayHas(l, r, _) => l != NULL && r != NULL
    case MakeJson(_, j, path) => j != NULL && PathOk(path)
    case MakeJsonArrayHas(j, path, v, _) => j != NULL && v != NULL && PathOk(path)
    case Clone(e) => e != NULL
  }

  /** The term an accepted call spells, given what its operands denote. */
  ghost function TermOf(call: ExprCall, den: Ptr -> Expr): Expr
    requires Yields(call)
  {
    match call
    case MakeColumn(name) => Column(name.text)
    case MakeString(text) => Literal(Str(text.text))
    case MakeLiteral(v) => Literal(v)
    case MakeBinary(l, op, r) => Binary(den(l), op, den(r))
    case MakeAnd(l, r) => Binary(den(l), And, den(r))
    case MakeOr(l, r) => Binary(den(l), Or, den(r))
    case MakeNot(a) => Not(den(a))
    case MakeIsNull(a) => IsNull(den(a))
    case MakeIsNotNull(a) => IsNotNull(den(a))
    case MakeInList(e, list, negated, _) => InList(den(e), Denoted(list.value, den), negated)
    case MakeArrayHas(l, r, _) => Expr.Call(ArrayHas, [den(l), den(r)])
    case MakeJson(fn, j, path) => Expr.Call(fn, [den(j)] + PathLiterals(path.value))
    case MakeJsonArrayHas(j, path, v, quote) =>
      Expr.Call(ArrayHas, [Expr.Call(JsonGetArray, [den(j)] + PathLiterals(path.value)), SearchValue(den(v), quote)])
    case Clone(e) => den(e)
  }

  ghost function Denoted(ps: seq<Ptr>, den: Ptr -> Expr): (es: seq<Expr>)
    ensures |es| == |ps| && forall i :: 0 <= i < |ps| ==> es[i] == den(ps[i])
  {
    seq(|ps|, i requires 0 <= i < |ps| => den(ps[i]))
  }

  predicate HasSlot(call: ExprCall) {
    (call.MakeInList? || call.MakeArrayHas?) && call.slot
  }

  ghost predicate LegalExpr(view: View, call: ExprCall) {
    match call
    case MakeBinary(l, _, r) => ExprPair(view, l, r)
    case MakeAnd(l, r) => ExprPair(view, l, r)
    case MakeOr(l, r) => ExprPair(view, l, r)
    case MakeNot(a) => ExprArg(view, a)
    case MakeIsNull(a) => ExprArg(view, a)
    case MakeIsNotNull(a) => ExprArg(view, a)
    case MakeInList(e, list, _, _) => InListArgs(view, e, list)
    case MakeArrayHas(l, r, _) => ExprPair(view, l, r)
    case MakeJson(_, j, _) => ExprArg(view, j)
    case MakeJsonArrayHas(j, _, v, _) => ExprPair(view, j, v)
    case Clone(e) => ExprArg(view, e)
    case _ => true
  }

  /** Every expression call consumes the same handles on every path and yields its term or NULL. */
  ghost predicate ExprStep(view: View, call: ExprCall, view': View, r: Ptr, msg: Message) {
    && (r != NULL <==> Yields(call))
    && var left := view - Consumed(call);
       if r != NULL then msg == None && r !in left && view' == left[r := ExprObj(TermOf(call, p => ExprAt(view, p)))]
       else MessageFits(left, HasSlot(call), INVALID_ARGUMENT, msg) && view' == Delivered(left, msg, INVALID_ARGUMENT)
  }

  /* ---------- queries ---------- */

  predicate IsSetter(call: QueryCall) {
    call.Number? || call.TextField? || call.Columns? || call.ExprFilter?
  }

  /** What a setter call amounts to, given what its operands denote. */
  ghost function SettingOf(call: QueryCall, den: Ptr -> Expr): SetterCall
    requires IsSetter(call)
  {
    match call
    case Number(q, s, _) => if q == NULL then SetterCall.Rejected else Accepted(s)
    case TextField(q, text, isFilter, _) =>
      if q == NULL || !text.Text? then SetterCall.Rejected
      else Accepted(if isFilter then Where(text.text) else SearchColumn(text.text))
    case Columns(q, columns, _) =>
      if q == NULL || columns.None? || !AllText(columns.value) then SetterCall.Rejected
          else Accepted(Select(Texts(columns.value)))
    case ExprFilter(q, e, _) => if q == NULL || e == NULL then SetterCall.Rejected else Accepted(DfFilter(den(e)))
  }

  /** Only an accepted expression filter takes a handle from the caller. */
  ghost function TakenBySetter(call: QueryCall): set<Ptr> {
    if call.ExprFilter? && call.q != NULL && call.expr != NULL then {call.expr} else {}
  }

  ghost predicate LegalQuery(view: View, call: QueryCall) {
    match call
    case NewQuery(t, _, _) => TableArg(view, t)
    case Number(q, s, _) =>
      QueryArg(view, q) && (s.Limit? || s.Offset? || s.Distance? || s.Nprobes? || s.RefineFactor? || s.Ef?)
    case TextField(q, _, _, _) => QueryArg(view, q)
    case Columns(q, _, _) => QueryArg(view, q)
    case ExprFilter(q, e, _) => QueryArg(view, q) && ExprArg(view, e)
    case Execute(q, _) => QueryArg(view, q)
    case ToArrow(r, _, _, _, _) => ResultArg(view, r)
    case Matches(arrays, _, n, e, _, _, _, engine, _) =>
      BatchesArg(view, arrays, n) && ExprArg(view, e)
  }

  ghost predicate NewQueryStep(view: View, table: Ptr, wantsVector: bool, vector: Option<Vector>, view': View, q: Ptr) {
    && (q != NULL <==> table != NULL && (wantsVector ==> vector.Some? && vector.value != []))
    && if q == NULL then view' == view
       else
         && q !in view
         && view' == view[q := QueryOf(QueryState(NewFields(TableAt(view, table), if wantsVector then vector else None),
                                                  None))]
  }

  ghost predicate ExecuteStep(view: View, q: Ptr, outcome: Result<Stream, LibError>, view': View, r: Ptr,
                              request: Option<Request>) {
    && (r != NULL <==> q != NULL && outcome.Ok?)
    && request == (if q == NULL then None else Some(RequestOf(StateAt(view, q))))
    && if r == NULL then view' == view - {q}
       else r !in view - {q} && view' == (view - {q})[r := LeafObj(QueryResult(outcome.value))]
  }

  ghost predicate ToArrowStep(view: View, result: Ptr, hasOutputs: bool, schemaError: Option<string>, grant: bool,
                              slot: bool, view': View, a: ArrowReply) {
    if result == NULL || !hasOutputs then
      && a.code == ErrorCode.InvalidArgument && a.batches == None && a.schema == None && a.count == None
      && MessageFits(view, slot, INVALID_ARGUMENT, a.msg) && view' == Delivered(view, a.msg, INVALID_ARGUMENT)
    else Converted(view - {result}, StreamAt(view, result), schemaError, grant, slot, view', a)
  }

  predicate MatchesPresent(call: QueryCall)
    requires call.Matches?
  {
    call.arrays != NULL && call.hasSchema && call.expr != NULL && call.hasResults && call.hasCount && call.rows > 0
  }

  /** The expression is consumed on every path; the batches are only read. */
  ghost predicate MatchesStep(view: View, call: QueryCall, engine: Engine, view': View, m: MatchesReply)
    requires call.Matches?
  {
    var left, cells, e := view - {call.expr}, BatchesAt(view, call.arrays, call.rows), ExprAt(view, call.expr);
    && (m.code.Success? <==> MatchesPresent(call) && Succeeds(engine, e, cells, call.grant))
    && if !m.code.Success? then
         && m.results == None && m.count == None
         && (if MatchesPresent(call) then FailsWith(engine, e, cells, call.grant, m.code, m.text)
             else m.code == ErrorCode.InvalidArgument && m.text == INVALID_ARGUMENT)
         && MessageFits(left, call.slot, m.text, m.msg) && view' == Delivered(left, m.msg, m.text)
       else
         && m.msg == None && m.count == Some(Sum(Lengths(cells))) && m.results.Some?
         && if Sum(Lengths(cells)) == 0 then m.results.value == NULL && view' == left
            else
              && m.results.value != NULL && m.results.value !in left
              && |Flat(engine, e, cells)| == Sum(Lengths(cells))
              && view' == left[m.results.value := Results(Flat(engine, e, cells))]
  }

  ghost predicate QueryStep(view: View, call: QueryCall, reply: Reply, view': View, engines: nat -> Engine) {
    match call
    case NewQuery(t, w, v) => reply.Handle? && reply.msg == None && NewQueryStep(view, t, w, v, view', reply.p)
    case Execute(q, outcome) => reply.Executed? && ExecuteStep(view, q, outcome, view', reply.p, reply.request)
    case ToArrow(r, hasOutputs, schemaError, grant, slot) =>
      reply.Arrows? && ToArrowStep(view, r, hasOutputs, schemaError, grant, slot, view', reply.arrow)
    case Matches(_, _, _, _, _, _, _, engine, _) =>
      reply.Flags?
      && MatchesStep(view, call, engines(engine), view', reply.matches)
    case _ =>
      reply.Setter? && SetterResult(view - TakenBySetter(call), call.q, SettingOf(call, p => ExprAt(view, p)),
                                    call.slot, view', reply.code, reply.msg)
  }

  /* ---------- tables ---------- */

  ghost predicate LegalTable(view: View, call: TableCall) {
    match call
    case FromArrow(data, _, _, _, _, _) => BuffersArg(view, data)
    case Add(t, r, _, _) => TableArg(view, t) && ReaderArg(view, r)
    case MergeInsert(t, r, _, config, _, _) => TableArg(view, t) && ReaderArg(view, r) && ConfigArg(view, config)
    case DfDelete(t, e, _, _) => TableArg(view, t) && ExprArg(view, e)
    case Nearest(t, _, _, _, _, _, _, _, _) => TableArg(view, t)
    case Metadata(t, _, _, _, _, _) => TableArg(view, t)
    case ChangeEntries(t, change, _, _) => TableArg(view, t) && Map.InBounds(change)
    case Indices(t, _, _, _, _) => TableArg(view, t)
    case Versions(t, _, _, _, _, _) => TableArg(view, t)
  }

  ghost predicate FromArrowStep(view: View, call: TableCall, view': View, s: Status, reader: Option<Ptr>)
    requires call.FromArrow?
  {
    var present := call.data != NULL && call.hasSchema && call.hasOut;
    var left := if present && call.badSchema.None? then view - {call.data} else view;
    && (reader.Some? <==> s.code.Success?)
    && Concluded(s, present, if call.badSchema.Some? then call.badSchema else call.badArray)
    && if !s.code.Success? then Ended(left, call.slot, s, view')
       else
         && s == DONE && reader.value != NULL && reader.value !in left
         && view' == left[reader.value := ReaderObj(BatchIn(view, call.data))]
  }

  ghost predicate NearestStep(view: View, call: TableCall, view': View, a: ArrowReply, text: string,
                              request: Option<Request>)
    requires call.Nearest?
  {
    var column' := if call.column.Text? then [Accepted(SearchColumn(call.column.text))] else [];
    var s := Status(a.code, text, a.msg);
    if request.None? then
      a.batches == None && a.schema == None && a.count == None && IsInvalidArgument(s)
          && Ended(view, call.slot, s, view')
    else
      && request.value == RequestOf(Requests.After(QueryState(NewFields(TableAt(view, call.table), call.vector), None),
                                                   column' + [Accepted(Limit(call.limit))]))
      && match call.found
         case Err(f) =>
           && a.batches == None && a.schema == None && a.count == None
           && IsFailure(s, f) && !a.code.Success? && Ended(view, call.slot, s, view')
         case Ok(bs) =>
           && text == (if a.code.Success? then "" else UNKNOWN_ERROR)
           && Converted(view, Ok(bs), if call.schemaFails then Some(UNKNOWN_ERROR) else None, call.grant, call.slot,
                        view', a)
  }

  /** A call that lists names from the state `left`, in which it has taken its handle. */
  ghost predicate NamesStep(left: View, accepted: bool, names: Result<seq<string>, Failure>, grant: bool, slot: bool,
                            view': View, l: ListReply) {
    if !accepted then IsInvalidArgument(l.status) && Unlisted(left, slot, view', l) && l.count == None
    else Listing(left, names, grant, slot, view', l)
  }

  /** A get reads the dataset of its handle, after the library has looked for a newer version. */
  ghost predicate MetadataStep(s: State, call: TableCall, view': View, m: MetadataReply)
    requires call.Metadata?
  {
    var seen := Looked(s.datasets, call.table, call.filter, call.hasOutputs, call.backend);
    exists order: seq<string> ::
      && Map.IsOrderOf(order, Stored(seen, call.table))
      && GetEnded(s.view, Stored(seen, call.table), Askable(call.table, call.filter, call.hasOutputs), call.filter,
                  call.backend, call.grants, order, call.slot, view', m)
  }

  /** What a table call does to the datasets: only metadata calls touch them. */
  function DatasetsAfter(datasets: Datasets, call: TableCall): Datasets {
    match call
    case ChangeEntries(table, change, backend, _) => Changed(datasets, table, change, backend)
    case Metadata(table, filter, hasOutputs, backend, _, _) => Looked(datasets, table, filter, hasOutputs, backend)
    case _ => datasets
  }

  ghost predicate TableStep(s: State, call: TableCall, reply: Reply, view': View) {
    var view := s.view;
    match call
    case FromArrow(_, _, _, _, _, _) => reply.Out? && FromArrowStep(view, call, view', reply.status, reply.out)
    case Add(t, r, result, slot) =>
      && reply.Plain? && Concluded(reply.status, t != NULL && r != NULL, result)
      && Ended(if t != NULL && r != NULL then view - {r} else view, slot, reply.status, view')
    case MergeInsert(t, r, on, config, result, slot) =>
      && reply.Plain? && Concluded(reply.status, t != NULL && r != NULL && PlanIn(view, on, config).Some?, result)
      && Ended(view - {r}, slot, reply.status, view')
    case DfDelete(t, e, result, slot) =>
      && reply.Plain? && Concluded(reply.status, t != NULL && e != NULL, result)
      && Ended(view - {e}, slot, reply.status, view')
    case Nearest(_, _, _, _, _, _, _, _, _) =>
      reply.Arrows?
      && NearestStep(view, call, view', reply.arrow, reply.text, reply.request)
    case Metadata(_, _, _, _, _, _) => reply.MetadataGot? && MetadataStep(s, call, view', reply.pairs)
    case ChangeEntries(t, change, backend, slot) =>
      && reply.Plain? && ChangeConcluded(reply.status, t != NULL && Map.Acceptable(change), backend)
      && Ended(view, slot, reply.status, view')
    case Indices(t, hasOutputs, names, grant, slot) =>
      reply.Listed? && NamesStep(view, t != NULL && hasOutputs, names, grant, slot, view', reply.list)
    case Versions(t, hasOutputs, wantMetadata, versions, refused, slot) =>
      && reply.VersionsGot?
      && if t == NULL || !hasOutputs then
           && IsInvalidArgument(reply.versions.status) && reply.versions.versions == reply.versions.metadata == None
           && Ended(view, slot, reply.versions.status, view')
         else VersionsListed(view, versions, wantMetadata, refused, slot, view', reply.versions)
  }

  /* ---------- connections ---------- */

  ghost predicate LegalConnection(view: View, call: ConnectionCall) {
    match call
    case NewBuilder(_) => true
    case AddOption(b, _, _) => BuilderArg(view, b)
    case UseSession(b, s) => BuilderArg(view, b) && SessionArg(view, s)
    case Open(b, _, _, _) => BuilderArg(view, b)
    case NewRegistry(_) => true
    case NewSession(r, _) => RegistryArg(view, r)
    case Insert(r, _, p, _) => RegistryArg(view, r) && ProviderArg(view, p)
    case CreateTable(c, _, _, r, _, _, _, _, _, _) => ConnectionArg(view, c) && ReaderArg(view, r)
    case OpenTableCall(c, _, _, _, _, _) => ConnectionArg(view, c)
    case Names(c, _, _, _, _, _) => ConnectionArg(view, c)
    case NewNames(c) => ConnectionArg(view, c)
    case NamesPage(b, _) => NamesArg(view, b)
    case NamesRun(b, _, _, _, _) => NamesArg(view, b)
  }

  /** A call that takes some handles and returns a new one, or NULL. */
  ghost predicate Replaced(left: View, ok: bool, leaf: Leaf, view': View, p: Ptr) {
    && (p != NULL <==> ok)
    && if p == NULL then view' == left else ConnectionApi.Made(left, leaf, view', p)
  }

  ghost predicate InsertStep(view: View, call: ConnectionCall, view': View, s: Status)
    requires call.Insert?
  {
    var taken := call.registry != NULL && call.provider != NULL && call.scheme.Text?;
    var left := if taken then view - {call.provider} else view;
    var inner := LeafAt(view, call.provider);
    && (s.code.Success? <==> taken && inner.Provider? && inner.inner.Some?)
    && if s.code.Success? then
         s == DONE && view' == left[call.registry := LeafObj(WithProvider(LeafAt(view, call.registry), call.scheme.text,
                                                                          inner))]
       else
         && Ended(left, call.slot, s, view')
         && if taken then s.code == ErrorCode.InvalidArgument && s.text == NO_PROVIDER
            else if call.registry != NULL && call.provider != NULL && call.scheme.BadUtf8?
            then s.code == ErrorCode.InvalidInput && s.text == BAD_SCHEME
            else IsInvalidArgument(s)
  }

  ghost predicate CreateTableStep(view: View, call: ConnectionCall, view': View, s: Status, out: Option<Ptr>)
    requires call.CreateTable?
  {
    var accepted := call.connection != NULL && call.name.Text? && call.hasSchema && call.hasOut;
    var left := if accepted && call.schemaError.None? then view - {call.reader} else view;
    && Concluded(s, accepted, CreationFailure(call.schemaError, call.nameError, call.table))
    && Opened(left, call.slot, Leaf.Table(if call.table.Ok? then call.table.value else 0), view', s, out)
  }

  ghost predicate ConnectionStep(view: View, call: ConnectionCall, reply: Reply, view': View) {
    match call
    case NewBuilder(uri) =>
      reply.Handle? && reply.msg == None
      && Replaced(view, uri.Text?, if uri.Text? then ConnectBuilder(uri.text, [], None) else CStr(""), view', reply.p)
    case AddOption(b, key, value) =>
      reply.Handle? && reply.msg == None
      && Replaced(view - {b}, b != NULL && key.Text? && value.Text?,
                  if key.Text? && value.Text? then WithOption(LeafAt(view, b), key.text, value.text) else CStr(""),
                      view', reply.p)
    case UseSession(b, s) =>
      reply.Handle? && reply.msg == None
      && Replaced(view - {b}, b != NULL, WithSession(LeafAt(view, b), LeafAt(view, s)), view', reply.p)
    case Open(b, hasOut, connected, slot) =>
      && reply.Out? && Concluded(reply.status, b != NULL && hasOut, ErrorOf(connected))
      && Opened(view - {b}, slot, Leaf.Connection(if connected.Ok? then connected.value else 0), view', reply.status,
                reply.out)
    case NewRegistry(defaults) =>
      reply.Handle? && reply.msg == None
      && Replaced(view, true, Registry(defaults), view', reply.p)
    case NewSession(r, defaults) =>
      reply.Handle? && reply.msg == None && Replaced(view - {r}, true, SessionOver(LeafAt(view, r), defaults), view',
                                                     reply.p)
    case Insert(_, _, _, _) => reply.Plain? && InsertStep(view, call, view', reply.status)
    case CreateTable(_, _, _, _, _, _, _, _, _, _) =>
      reply.Out?
      && CreateTableStep(view, call, view', reply.status, reply.out)
    case OpenTableCall(c, name, hasOut, table, slot, _) =>
      && reply.Out? && Concluded(reply.status, c != NULL && name.Text? && hasOut, ErrorOf(table))
      && Opened(view, slot, Leaf.Table(if table.Ok? then table.value else 0), view', reply.status, reply.out)
    case Names(c, hasOutputs, parent, names, grant, slot) =>
      reply.Listed? && NamesStep(view, c != NULL && hasOutputs && !parent.BadUtf8?, names, grant, slot, view',
                                 reply.list)
    case NewNames(c) =>
      reply.Handle? && reply.msg == None
      && Replaced(view, c != NULL, TableNamesBuilder(if LeafAt(view, c).Connection? then LeafAt(view, c).id else 0,
                                                     None, None),
                  view', reply.p)
    case NamesPage(b, page) =>
      reply.Handle? && reply.msg == None
      && Replaced(view - {b}, b != NULL && PageReadable(page), WithPage(LeafAt(view, b), page), view', reply.p)
    case NamesRun(b, hasOutputs, names, grant, slot) =>
      reply.Listed? && NamesStep(view - {b}, b != NULL && hasOutputs, names, grant, slot, view', reply.list)
  }

  /** A table that is created or opened gets a dataset. */
  function DatasetsOpened(datasets: Datasets, call: ConnectionCall, reply: Reply): Datasets {
    if (call.CreateTable? || call.OpenTableCall?) && reply.Out? && reply.status.code.Success? && reply.out.Some?
    then datasets[reply.out.value := call.stored] else datasets
  }

  /* ---------- releasing ---------- */

  /** NULL, or a list of C strings together with its length. */
  ghost predicate StringsArg(view: View, list: Ptr, count: nat) {
    list == NULL || (list in view && exists names: seq<string> :: view[list] == StringList(names) && count == |names|)
  }

  ghost predicate ExtrasArg(view: View, extras: Ptr, count: nat) {
    || extras == NULL
    || (extras in view && exists mds: seq<Entries> :: count == |mds| && view[extras] == MetadataList(|mds|, mds))
  }

  ghost predicate LegalFree(view: View, call: MemoryCall) {
    match call
    case Host(leaf) => leaf.Buffers? || leaf.Provider?
    case FreeBox(p) => p == NULL || (p in view && HomeOfObject(view[p]) == InBox)
    case FreeText(p) => p == NULL || (p in view && view[p].LeafObj? && view[p].leaf.CStr?)
    case FreeList(list, count) => StringsArg(view, list, count)
    case FreeArrows(list, count) =>
      list == NULL || (list in view && view[list].ArrayObj? && count == |view[list].slots|
                       && ArrowCellsOnly(view[list].slots))
    case FreeMatches(r) => r == NULL || (r in view && view[r].LeafObj? && view[r].leaf.BoolBuffer?)
    case FreeVersionList(v) => v == NULL || (v in view && view[v].LeafObj? && view[v].leaf.VersionBuffer?)
    case FreeVersionExtras(x, count) => ExtrasArg(view, x, count)
    case FreePairs(keys, values, count) =>
      StringsArg(view, keys, count) && StringsArg(view, values, count) && (keys == NULL || keys != values)
  }

  ghost function Released(call: MemoryCall): set<Ptr> {
    match call
    case Host(_) => {}
    case FreeBox(p) => {p}
    case FreeText(p) => {p}
    case FreeList(list, _) => {list}
    case FreeArrows(list, _) => {list}
    case FreeMatches(r) => {r}
    case FreeVersionList(v) => {v}
    case FreeVersionExtras(x, _) => {x}
    case FreePairs(keys, values, _) => {keys, values}
  }

  ghost predicate FreeStep(view: View, call: MemoryCall, reply: Reply, view': View) {
    match call
    case Host(leaf) => reply.Handle? && reply.msg == None && ConnectionApi.Made(view, leaf, view', reply.p)
    case _ => reply.Freed? && view' == view - Released(call)
  }

  /* ---------- all calls ---------- */

  /**
   The obligation of the program: live handles of the right kind, pairwise distinct where consumed, and true
   counts.
   */
  ghost predicate Legal(view: View, call: Call) {
    match call
    case Exprs(e) => LegalExpr(view, e)
    case Queries(q) => LegalQuery(view, q)
    case Tables(t) => LegalTable(view, t)
    case Connections(c) => LegalConnection(view, c)
    case Frees(m) => LegalFree(view, m)
  }

  /** What the call may do to the handles the program holds. */
  ghost predicate Moves(s: State, call: Call, reply: Reply, view': View, engines: nat -> Engine) {
    match call
    case Exprs(e) => reply.Handle? && ExprStep(s.view, e, view', reply.p, reply.msg)
    case Queries(q) => QueryStep(s.view, q, reply, view', engines)
    case Tables(t) => TableStep(s, t, reply, view')
    case Connections(c) => ConnectionStep(s.view, c, reply, view')
    case Frees(m) => FreeStep(s.view, m, reply, view')
  }

  /** One call takes the program and the library from `s` to `s'`. */
  ghost predicate Stepped(s: State, call: Call, reply: Reply, s': State, engines: nat -> Engine) {
    && Moves(s, call, reply, s'.view, engines)
    && s'.datasets == match call
                      case Tables(t) => DatasetsAfter(s.datasets, t)
                      case Connections(c) => DatasetsOpened(s.datasets, c, reply)
                      case _ => s.datasets
  }
}
