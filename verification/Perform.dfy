/** Performs any legal call: the state machine of Calls.dfy is what the API methods do to the heap. */
module Perform {
  import opened Basics
  import opened Objects
  import opened Memory
  import opened HeapModel
  import opened Messages
  import opened ExprApi
  import opened JsonExprApi
  import opened JsonMatches
  import opened Requests
  import opened QueryApi
  import opened Marshal
  import opened VersionApi
  import opened TableApi
  import opened MetadataApi
  import opened ConnectionApi
  import opened Calls
  import Map = MetadataMap

  /* ---------- expressions ---------- */

  method UnaryCall(h: Heap, shape: Shape, arg: Ptr, ghost call: ExprCall) returns (r: Ptr)
    requires h.Ready() && ExprArg(h.View(), arg)
    requires (shape, call) in {(NotShape, MakeNot(arg)), (IsNullShape, MakeIsNull(arg)),
                               (IsNotNullShape, MakeIsNotNull(arg))}
    modifies h
    ensures h.Ready() && ExprStep(old(h.View()), call, h.View(), r, None)
  {
    hide Forest, Held, StackBlocks, Home, HomeOfObject;
    ghost var view0 := h.View();
    h.HeldAreLive();
    r := ExprUnary(h, shape, arg);
    if r == NULL {
      assert view0 - {arg} == view0;
    }
  }

  lemma DenotedIn(view: View, ps: seq<Ptr>)
    requires AllExprsIn(view, ps)
    ensures Denoted(ps, p => ExprAt(view, p)) == ExprsIn(view, ps)
  {
  }

  method InListCall(h: Heap, expr: Ptr, list: Option<seq<Ptr>>, negated: bool, slot: bool)
    returns (r: Ptr, msg: Message)
    requires h.Ready() && InListArgs(h.View(), expr, list)
    modifies h
    ensures h.Ready() && ExprStep(old(h.View()), MakeInList(expr, list, negated, slot), h.View(), r, msg)
  {
    hide Forest, Held, StackBlocks, Home, HomeOfObject, SetOf, InListConsumed, Delivered, MessageFits;
    ghost var view0 := h.View();
    r, msg := ExprInList(h, expr, list, negated, slot);
    if r != NULL {
      DenotedIn(view0, list.value);
    }
  }

  method PairCall(h: Heap, call: ExprCall) returns (r: Ptr, msg: Message)
    requires h.Ready() && LegalExpr(h.View(), call)
    requires call.MakeBinary? || call.MakeAnd? || call.MakeOr? || call.MakeArrayHas? || call.MakeJsonArrayHas?
    modifies h
    ensures h.Ready() && ExprStep(old(h.View()), call, h.View(), r, msg)
  {
    hide Forest, Held, StackBlocks, Home, HomeOfObject;
    msg := None;
    match call
    case MakeBinary(l, op, right) => r := ExprBinary(h, l, op, right);
    case MakeAnd(l, right) => r := ExprAnd(h, l, right);
    case MakeOr(l, right) => r := ExprOr(h, l, right);
    case MakeArrayHas(l, right, slot) => r, msg := ExprArrayHas(h, l, right, slot);
    case MakeJsonArrayHas(json, path, v, quote) => r := ExprJsonArrayHas(h, json, path, v, quote);
  }

  method LeafCall(h: Heap, call: ExprCall) returns (r: Ptr)
    requires h.Ready() && LegalExpr(h.View(), call)
    requires call.MakeColumn? || call.MakeString? || call.MakeLiteral? || call.Clone? || call.MakeJson?
    modifies h
    ensures h.Ready() && ExprStep(old(h.View()), call, h.View(), r, None)
  {
    hide Forest, Held, StackBlocks, Home, HomeOfObject;
    ghost var view0 := h.View();
    h.HeldAreLive();
    match call
    case MakeColumn(name) => r := ExprColumn(h, name); assert view0 - {} == view0;
    case MakeString(text) => r := ExprLiteralString(h, text); assert view0 - {} == view0;
    case MakeLiteral(v) => r := ExprLiteral(h, v); assert view0 - {} == view0;
    case Clone(e) => r := ExprClone(h, e); assert view0 - {} == view0;
    case MakeJson(fn, json, path) => r := BuildJsonUdfExpr(h, fn, json, path);
  }

  method PerformExpr(h: Heap, call: ExprCall) returns (reply: Reply)
    requires h.Ready() && LegalExpr(h.View(), call)
    modifies h
    ensures h.Ready() && reply.Handle? && ExprStep(old(h.View()), call, h.View(), reply.p, reply.msg)
  {
    hide Forest, Held, StackBlocks, ExprStep;
    var r, msg := NULL, None;
    match call {
      case MakeNot(a) => r := UnaryCall(h, NotShape, a, call);
      case MakeIsNull(a) => r := UnaryCall(h, IsNullShape, a, call);
      case MakeIsNotNull(a) => r := UnaryCall(h, IsNotNullShape, a, call);
      case MakeInList(e, list, negated, slot) => r, msg := InListCall(h, e, list, negated, slot);
      case MakeBinary(_, _, _) => r, msg := PairCall(h, call);
      case MakeAnd(_, _) => r, msg := PairCall(h, call);
      case MakeOr(_, _) => r, msg := PairCall(h, call);
      case MakeArrayHas(_, _, _) => r, msg := PairCall(h, call);
      case MakeJsonArrayHas(_, _, _, _) => r, msg := PairCall(h, call);
      case _ => r := LeafCall(h, call);
    }
    reply := Handle(r, msg);
  }

  /* ---------- queries ---------- */

  method SetterCallOn(h: Heap, call: QueryCall, ghost engines: nat -> Engine) returns (reply: Reply)
    requires h.Ready() && LegalQuery(h.View(), call) && IsSetter(call)
    modifies h
    ensures h.Ready() && QueryStep(old(h.View()), call, reply, h.View(), engines)
  {
    hide Forest, Held, StackBlocks, Delivered, MessageFits, QueryOf, Apply, StateAt, AllText;
    ghost var view0 := h.View();
    assert view0 - {} == view0;
    var code, msg;
    match call {
      case Number(q, s, slot) => code, msg := SetNumber(h, q, s, slot);
      case TextField(q, text, isFilter, slot) => code, msg := SetText(h, q, text, isFilter, slot);
      case Columns(q, columns, slot) => code, msg := SetSelect(h, q, columns, slot);
      case ExprFilter(q, e, slot) => code, msg := SetDfFilter(h, q, e, slot);
    }
    reply := Reply.Setter(code, msg);
  }

  method MatchesCall(h: Heap, call: QueryCall, engine: Engine) returns (m: MatchesReply)
    requires call.Matches? && h.Ready() && BatchesArg(h.View(), call.arrays, call.rows) && ExprArg(h.View(), call.expr)
    modifies h
    ensures h.Ready() && MatchesStep(old(h.View()), call, engine, h.View(), m)
  {
    hide Forest, Held, StackBlocks, Delivered, MessageFits, Flat, Lengths, Sum, Results, Succeeds, FailsWith,
        BatchesArg;
    m := JsonMatches.JsonMatches(h, call.arrays, call.hasSchema, call.rows, call.expr, call.hasResults, call.hasCount,
                                 call.slot, engine, call.grant);
  }

  method ToArrowCall(h: Heap, result: Ptr, hasOutputs: bool, schemaError: Option<string>, grant: bool, slot: bool)
    returns (a: ArrowReply)
    requires h.Ready() && ResultArg(h.View(), result)
    modifies h
    ensures h.Ready() && ToArrowStep(old(h.View()), result, hasOutputs, schemaError, grant, slot, h.View(), a)
  {
    hide Forest, Held, StackBlocks, Delivered, MessageFits, Converted, StreamAt;
    a := ResultToArrow(h, result, hasOutputs, schemaError, grant, slot);
  }

  method PerformQuery(h: Heap, call: QueryCall, engines: nat -> Engine) returns (reply: Reply)
    requires h.Ready() && LegalQuery(h.View(), call)
    modifies h
    ensures h.Ready() && QueryStep(old(h.View()), call, reply, h.View(), engines)
  {
    hide Forest, Held, StackBlocks, MatchesStep, ToArrowStep, SetterResult, SettingOf, QueryOf, RequestOf, BatchesArg;
    match call
    case NewQuery(t, wantsVector, vector) =>
      var q := QueryNew(h, t, wantsVector, vector);
      reply := Handle(q, None);
    case Execute(q, outcome) =>
      var r, request := QueryExecute(h, q, outcome);
      reply := Executed(r, request);
    case ToArrow(r, hasOutputs, schemaError, grant, slot) =>
      var a := ToArrowCall(h, r, hasOutputs, schemaError, grant, slot);
      reply := Arrows(a, "", None);
    case Matches(_, _, _, _, _, _, _, engine, _) =>
      var m := MatchesCall(h, call, engines(engine));
      reply := Flags(m);
    case _ => reply := SetterCallOn(h, call, engines);
  }

  /* ---------- tables ---------- */

  method NearestCall(h: Heap, call: TableCall) returns (a: ArrowReply, text: string, request: Option<Request>)
    requires call.Nearest? && h.Ready() && TableArg(h.View(), call.table)
    modifies h
    ensures h.Ready() && NearestStep(old(h.View()), call, h.View(), a, text, request)
  {
    hide Forest, Held, StackBlocks, Ended, Converted, IsFailure, RequestOf, Requests.After;
    a, text, request := NearestTo(h, call.table, call.vector, call.limit, call.column, call.hasOutputs, call.slot,
                                  call.found, call.schemaFails, call.grant);
  }

  method MetadataCallOn(h: Heap, lib: Library, call: TableCall) returns (m: MetadataReply)
    requires call.Metadata? && h.Ready() && LegalTable(h.View(), call)
    modifies h, lib
    ensures h.Ready() && MetadataStep(old(State(h.View(), lib.datasets)), call, h.View(), m)
    ensures lib.datasets == DatasetsAfter(old(lib.datasets), call)
  {
    hide Forest, Held, StackBlocks, GetEnded, Map.IsOrderOf;
    ghost var order;
    m, order := GetMetadata(h, lib, call.table, call.filter, call.hasOutputs, call.backend, call.grants, call.slot);
  }

  method IndicesCall(h: Heap, table: Ptr, hasOutputs: bool, names: Result<seq<string>, Failure>, grant: bool,
                     slot: bool)
    returns (l: ListReply)
    requires h.Ready() && TableArg(h.View(), table)
    modifies h
    ensures h.Ready() && NamesStep(old(h.View()), table != NULL && hasOutputs, names, grant, slot, h.View(), l)
  {
    hide Forest, Held, StackBlocks, Unlisted, Listing;
    l := ListIndices(h, table, hasOutputs, names, grant, slot);
  }

  /** The calls that take a reader or an expression. */
  method PerformMove(h: Heap, call: TableCall) returns (reply: Reply)
    requires h.Ready() && LegalTable(h.View(), call)
    requires call.FromArrow? || call.Add? || call.MergeInsert? || call.DfDelete?
    modifies h
    ensures h.Ready() && forall ds :: TableStep(State(old(h.View()), ds), call, reply, h.View())
  {
    hide Forest, Held, StackBlocks, Ended, PlanIn, IsFailure;
    match call
    case FromArrow(data, hasSchema, hasOut, badSchema, badArray, slot) =>
      var s, reader := ReaderFromArrow(h, data, hasSchema, hasOut, badSchema, badArray, slot);
      reply := Out(s, reader);
    case Add(t, r, result, slot) =>
      var s, sent := TableAdd(h, t, r, result, slot);
      reply := Reply.Plain(s);
    case MergeInsert(t, r, on, config, result, slot) =>
      var s, sent := TableMergeInsert(h, t, r, on, config, result, slot);
      reply := Reply.Plain(s);
    case DfDelete(t, e, result, slot) =>
      var s, sent := TableDfDelete(h, t, e, result, slot);
      reply := Reply.Plain(s);
  }

  method PerformTable(h: Heap, lib: Library, call: TableCall) returns (reply: Reply)
    requires h.Ready() && LegalTable(h.View(), call)
    modifies h, lib
    ensures h.Ready() && TableStep(old(State(h.View(), lib.datasets)), call, reply, h.View())
    ensures lib.datasets == DatasetsAfter(old(lib.datasets), call)
  {
    hide Forest, Held, StackBlocks, Ended, NearestStep, MetadataStep, NamesStep, VersionsListed, PlanIn, IsFailure;
    match call
    case Nearest(_, _, _, _, _, _, _, _, _) =>
      var a, text, request := NearestCall(h, call);
      reply := Arrows(a, text, request);
    case Metadata(_, _, _, _, _, _) =>
      var m := MetadataCallOn(h, lib, call);
      reply := MetadataGot(m);
    case ChangeEntries(t, change, backend, slot) =>
      var s := ChangeMetadata(h, lib, t, change, backend, slot);
      reply := Reply.Plain(s);
    case Indices(t, hasOutputs, names, grant, slot) =>
      var l := IndicesCall(h, t, hasOutputs, names, grant, slot);
      reply := Reply.Listed(l);
    case Versions(t, hasOutputs, wantMetadata, versions, refused, slot) =>
      var v := TableListVersions(h, t, hasOutputs, wantMetadata, versions, refused, slot);
      reply := VersionsGot(v);
    case _ => reply := PerformMove(h, call);
  }

  /* ---------- connections ---------- */

  method NamesCall(h: Heap, connection: Ptr, hasOutputs: bool, parent: CArg, names: Result<seq<string>, Failure>,
                   grant: bool, slot: bool) returns (l: ListReply)
    requires h.Ready() && ConnectionArg(h.View(), connection)
    modifies h
    ensures h.Ready()
    ensures NamesStep(old(h.View()), connection != NULL && hasOutputs && !parent.BadUtf8?, names, grant, slot, h.View(),
                      l)
  {
    hide Forest, Held, StackBlocks, Unlisted, Listing;
    l := ListNames(h, connection, hasOutputs, parent, names, grant, slot);
  }

  method NamesRunCall(h: Heap, builder: Ptr, hasOutputs: bool, names: Result<seq<string>, Failure>, grant: bool,
                      slot: bool)
    returns (l: ListReply)
    requires h.Ready() && NamesArg(h.View(), builder)
    modifies h
    ensures h.Ready() && NamesStep(old(h.View()) - {builder}, builder != NULL && hasOutputs, names, grant, slot,
                                   h.View(), l)
  {
    hide Forest, Held, StackBlocks, Unlisted, Listing;
    var sent;
    l, sent := NamesExecute(h, builder, hasOutputs, names, grant, slot);
  }

  method PerformBuilder(h: Heap, call: ConnectionCall) returns (p: Ptr)
    requires h.Ready() && LegalConnection(h.View(), call)
    requires call.NewBuilder? || call.AddOption? || call.UseSession? || call.NewRegistry? || call.NewSession?
              || call.NewNames?
             || call.NamesPage?
    modifies h
    ensures h.Ready() && ConnectionStep(old(h.View()), call, Handle(p, None), h.View())
  {
    hide Forest, Held, StackBlocks, Home, HomeOfObject, WithOption, WithSession, WithPage, PageReadable;
    ghost var view0 := h.View();
    h.HeldAreLive();
    assert view0 - {NULL} == view0;
    match call
    case NewBuilder(uri) => p := Connect(h, uri);
    case AddOption(b, key, value) => p := StorageOption(h, b, key, value);
    case UseSession(b, s) => p := BuilderSession(h, b, s);
    case NewRegistry(defaults) => p := RegistryNew(h, defaults);
    case NewSession(r, defaults) => p := SessionNew(h, r, defaults);
    case NewNames(c) => p := NamesBuilder(h, c);
    case NamesPage(b, page) => p := SetPage(h, b, page);
  }

  method OpenDataset(lib: Library, s: Status, out: Option<Ptr>, stored: Map.Entries)
    modifies lib
    ensures lib.datasets ==
              if s.code.Success? && out.Some? then old(lib.datasets)[out.value := stored] else old(lib.datasets)
  {
    if s.code.Success? && out.Some? {
      lib.Open(out.value, stored);
    }
  }

  method PerformOpen(h: Heap, lib: Library, call: ConnectionCall) returns (reply: Reply)
    requires h.Ready() && LegalConnection(h.View(), call) && (call.CreateTable? || call.OpenTableCall?)
    modifies h, lib
    ensures h.Ready() && ConnectionStep(old(h.View()), call, reply, h.View())
    ensures lib.datasets == DatasetsOpened(old(lib.datasets), call, reply)
  {
    hide Forest, Held, StackBlocks, Opened, IsFailure;
    match call
    case CreateTable(c, name, hasSchema, r, hasOut, schemaError, nameError, table, slot, stored) =>
      var s, out, sent := TableCreate(h, c, name, hasSchema, r, hasOut, schemaError, nameError, table, slot);
      OpenDataset(lib, s, out, stored);
      reply := Out(s, out);
    case OpenTableCall(c, name, hasOut, table, slot, stored) =>
      var s, out := OpenTable(h, c, name, hasOut, table, slot);
      OpenDataset(lib, s, out, stored);
      reply := Out(s, out);
  }

  method PerformConnection(h: Heap, lib: Library, call: ConnectionCall) returns (reply: Reply)
    requires h.Ready() && LegalConnection(h.View(), call)
    modifies h, lib
    ensures h.Ready() && ConnectionStep(old(h.View()), call, reply, h.View())
    ensures lib.datasets == DatasetsOpened(old(lib.datasets), call, reply)
  {
    hide Forest, Held, StackBlocks, Ended, Replaced, Opened, NamesStep, IsFailure, WithProvider;
    match call
    case Open(b, hasOut, connected, slot) =>
      var s, out, sent := BuilderExecute(h, b, hasOut, connected, slot);
      reply := Out(s, out);
    case Insert(r, scheme, p, slot) =>
      var s := InsertProvider(h, r, scheme, p, slot);
      reply := Reply.Plain(s);
    case Names(c, hasOutputs, parent, names, grant, slot) =>
      var l := NamesCall(h, c, hasOutputs, parent, names, grant, slot);
      reply := Reply.Listed(l);
    case NamesRun(b, hasOutputs, names, grant, slot) =>
      var l := NamesRunCall(h, b, hasOutputs, names, grant, slot);
      reply := Reply.Listed(l);
    case CreateTable(_, _, _, _, _, _, _, _, _, _) => reply := PerformOpen(h, lib, call);
    case OpenTableCall(_, _, _, _, _, _) => reply := PerformOpen(h, lib, call);
    case _ =>
      var p := PerformBuilder(h, call);
      reply := Handle(p, None);
  }

  /* ---------- releasing ---------- */

  lemma NothingBefore(blocks: Blocks)
    ensures Apart(map[], blocks)
  {
  }

  method FreeListCall(h: Heap, list: Ptr, count: nat)
    requires h.Ready() && StringsArg(h.View(), list, count)
    modifies h
    ensures h.Ready() && h.View() == old(h.View()) - {list}
  {
    hide Forest, Held, StackBlocks, Apart, StringList;
    NothingBefore(h.blocks);
    ghost var names: seq<string> := [];
    if list != NULL {
      names :| h.View()[list] == StringList(names) && count == |names|;
    }
    FreeStrings(h, list, count, names, map[]);
  }

  method FreeExtrasCall(h: Heap, extras: Ptr, count: nat)
    requires h.Ready() && ExtrasArg(h.View(), extras, count)
    modifies h
    ensures h.Ready() && h.View() == old(h.View()) - {extras}
  {
    hide Forest, Held, StackBlocks, Apart, MetadataList;
    NothingBefore(h.blocks);
    ghost var mds: seq<Entries> := [];
    if extras != NULL {
      mds :| h.View()[extras] == MetadataList(|mds|, mds) && count == |mds|;
    }
    FreeVersionMetadata(h, extras, count, mds, map[]);
  }

  method FreePairsCall(h: Heap, keys: Ptr, values: Ptr, count: nat)
    requires h.Ready() && LegalFree(h.View(), FreePairs(keys, values, count))
    modifies h
    ensures h.Ready() && h.View() == old(h.View()) - {keys, values}
  {
    hide Forest, Held, StackBlocks, Apart, StringList;
    NothingBefore(h.blocks);
    ghost var ks: seq<string>, vs: seq<string> := [], [];
    if keys != NULL {
      ks :| h.View()[keys] == StringList(ks) && count == |ks|;
    }
    if values != NULL {
      vs :| h.View()[values] == StringList(vs) && count == |vs|;
    }
    FreeMetadata(h, keys, values, count, ks, vs, map[]);
  }

  method PerformFree(h: Heap, call: MemoryCall) returns (reply: Reply)
    requires h.Ready() && LegalFree(h.View(), call)
    modifies h
    ensures h.Ready() && FreeStep(old(h.View()), call, reply, h.View())
  {
    hide Forest, Held, StackBlocks, StringsArg, ExtrasArg, Apart, ArrowCellsOnly;
    reply := Freed;
    NothingBefore(h.blocks);
    match call
    case Host(leaf) =>
      var p := h.LeafNew(leaf);
      reply := Handle(p, None);
    case FreeBox(p) => BoxFree(h, p);
    case FreeText(p) => FreeString(h, p);
    case FreeList(list, count) => FreeListCall(h, list, count);
    case FreeArrows(list, count) => FreeArrowArrays(h, list, count);
    case FreeMatches(r) => FreeJsonMatches(h, r);
    case FreeVersionList(v) => FreeVersions(h, v, map[]);
    case FreeVersionExtras(x, count) => FreeExtrasCall(h, x, count);
    case FreePairs(keys, values, count) => FreePairsCall(h, keys, values, count);
  }

  /* ---------- all calls ---------- */

  /**
   Whatever legal call is made, and whatever the library and malloc answer, the call respects every
   memory rule of the heap and changes the program's handles only as the state machine says.
   */
  method Perform(h: Heap, lib: Library, call: Calls.Call, engines: nat -> Engine) returns (reply: Reply)
    requires h.Ready() && Legal(h.View(), call)
    modifies h, lib
    ensures h.Ready()
    ensures Stepped(old(State(h.View(), lib.datasets)), call, reply, State(h.View(), lib.datasets), engines)
  {
    hide Forest, Held, StackBlocks, ExprStep, QueryStep, TableStep, ConnectionStep, FreeStep, DatasetsAfter, LegalExpr,
        LegalQuery, LegalTable, LegalConnection, LegalFree;
    match call
    case Exprs(e) => reply := PerformExpr(h, e);
    case Queries(q) => reply := PerformQuery(h, q, engines);
    case Tables(t) => reply := PerformTable(h, lib, t);
    case Connections(c) => reply := PerformConnection(h, lib, c);
    case Frees(m) => reply := PerformFree(h, m);
  }
}
