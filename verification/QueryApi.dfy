/** Query objects, their execution and the conversion of results to Arrow (src/query.rs) on the heap. */
module QueryApi {
  import opened Basics
  import opened Exprs
  import opened Objects
  import opened Memory
  import opened HeapModel
  import opened Messages
  import opened Errors
  import opened ExprApi
  import opened Requests

  ghost predicate TableArg(view: map<Ptr, Object>, t: Ptr) {
    t == NULL || (t in view && view[t].LeafObj? && view[t].leaf.Table?)
  }

  ghost predicate QueryArg(view: map<Ptr, Object>, q: Ptr) {
    q == NULL || (q in view && view[q].QueryObj?)
  }

  ghost function StateAt(view: map<Ptr, Object>, q: Ptr): QueryState {
    if q in view && view[q].QueryObj? then QueryState(view[q].fields, view[q].dfFilter)
    else QueryState(NewFields(0, None), None)
  }

  ghost function TableAt(view: map<Ptr, Object>, t: Ptr): TableId {
    if t in view && view[t].LeafObj? && view[t].leaf.Table? then view[t].leaf.id else 0
  }

  ghost function QueryOf(q: QueryState): Object {
    QueryObj(q.fields, q.dfFilter)
  }

  /** lancedb_query_new, and lancedb_vector_query_new where a vector is given. */
  method QueryNew(h: Heap, table: Ptr, wantsVector: bool, vector: Option<Vector>) returns (q: Ptr)
    requires h.Ready() && TableArg(h.View(), table)
    modifies h
    ensures h.Ready()
    ensures q != NULL <==> table != NULL && (wantsVector ==> vector.Some? && vector.value != [])
    ensures q == NULL ==> h.View() == old(h.View())
    ensures q != NULL ==>
              && q !in old(h.View())
              && h.View() == old(h.View())[q :=
                   QueryOf(QueryState(NewFields(TableAt(old(h.View()), table), if wantsVector then vector else None),
                                      None))]
  {
    hide Forest, Held, StackBlocks, Targets;
    h.HeldAreLive();
    if table == NULL || (wantsVector && (vector.None? || vector.value == [])) {
      return NULL;
    }
    var leaf := h.ReadLeaf(table);
    TargetsOf([]);
    assert SlotMeanings(h.View(), []) == [];
    q := h.BoxNew(Query(NewFields(leaf.id, if wantsVector then vector else None)), []);
  }

  /** How a setter ended. */
  ghost predicate SetterResult(view: map<Ptr, Object>, q: Ptr, call: SetterCall, slot: bool,
                               view': map<Ptr, Object>, code: ErrorCode, msg: Message) {
    match call
    case Accepted(s) =>
      code.Success? && msg == None && q in view
      && view' == view[q := QueryOf(Apply(StateAt(view, q), s))]
    case Rejected =>
      code == ErrorCode.InvalidArgument && MessageFits(view, slot, INVALID_ARGUMENT, msg)
      && view' == Delivered(view, msg, INVALID_ARGUMENT)
  }

  method RejectSetter(h: Heap, q: Ptr, slot: bool) returns (code: ErrorCode, msg: Message)
    requires h.Ready()
    modifies h
    ensures h.Ready() && SetterResult(old(h.View()), q, Rejected, slot, h.View(), code, msg)
  {
    hide Forest, Held, StackBlocks;
    msg := SetMessage(h, slot, INVALID_ARGUMENT);
    code := ErrorCode.InvalidArgument;
  }

  /** Overwrites one plain field of a live query object. */
  method SetField(h: Heap, q: Ptr, s: Setting) returns (code: ErrorCode, msg: Message)
    requires h.Ready() && q != NULL && QueryArg(h.View(), q) && !s.DfFilter?
    modifies h
    ensures h.Ready() && SetterResult(old(h.View()), q, Accepted(s), false, h.View(), code, msg)
  {
    hide Forest, Held, StackBlocks;
    var fields, hasFilter := h.ReadFields(q);
    h.SetFields(q, Apply(QueryState(fields, None), s).fields);
    code, msg := ErrorCode.Success, None;
  }

  /**
   The setters whose only possible mistake is a NULL query: limit, offset, distance type, nprobes, refine
   factor, ef.
   */
  method SetNumber(h: Heap, q: Ptr, s: Setting, slot: bool) returns (code: ErrorCode, msg: Message)
    requires h.Ready() && QueryArg(h.View(), q)
    requires s.Limit? || s.Offset? || s.Distance? || s.Nprobes? || s.RefineFactor? || s.Ef?
    modifies h
    ensures h.Ready()
    ensures SetterResult(old(h.View()), q, if q == NULL then Rejected else Accepted(s), slot, h.View(), code, msg)
  {
    hide Forest, Held, StackBlocks;
    if q == NULL {
      code, msg := RejectSetter(h, q, slot);
    } else {
      code, msg := SetField(h, q, s);
    }
  }

  /** where_filter, and column for vector queries. */
  method SetText(h: Heap, q: Ptr, arg: CArg, isFilter: bool, slot: bool) returns (code: ErrorCode, msg: Message)
    requires h.Ready() && QueryArg(h.View(), q)
    modifies h
    ensures h.Ready()
    ensures SetterResult(old(h.View()), q,
              if q == NULL || !arg.Text? then Rejected else Accepted(if isFilter then Where(arg.text)
                                                                     else SearchColumn(arg.text)),
              slot, h.View(), code, msg)
  {
    hide Forest, Held, StackBlocks;
    if q == NULL || arg.NullArg? || arg.BadUtf8? {
      code, msg := RejectSetter(h, q, slot);
    } else {
      code, msg := SetField(h, q, if isFilter then Where(arg.text) else SearchColumn(arg.text));
    }
  }

  predicate AllText(args: seq<CArg>) {
    forall i :: 0 <= i < |args| ==> args[i].Text?
  }

  function Texts(args: seq<CArg>): (texts: seq<string>)
    requires AllText(args)
    ensures |texts| == |args| && forall i :: 0 <= i < |args| ==> texts[i] == args[i].text
  {
    seq(|args|, i requires 0 <= i < |args| => args[i].text)
  }

  /** Reads an array of C strings; None at the first one that is NULL or not UTF-8. */
  method ReadTexts(args: seq<CArg>) returns (r: Option<seq<string>>)
    ensures r.Some? <==> AllText(args)
    ensures r.Some? ==> r.value == Texts(args)
  {
    var names := [];
    var i := 0;
    while i < |args|
      invariant i <= |args| && AllText(args[..i]) && names == Texts(args[..i])
    {
      if !args[i].Text? {
        return None;
      }
      names := names + [args[i].text];
      i := i + 1;
    }
    assert args[..i] == args;
    r := Some(names);
  }

  method SetSelect(h: Heap, q: Ptr, columns: Option<seq<CArg>>, slot: bool) returns (code: ErrorCode, msg: Message)
    requires h.Ready() && QueryArg(h.View(), q)
    modifies h
    ensures h.Ready()
    ensures SetterResult(old(h.View()), q,
              if q == NULL || columns.None? || !AllText(columns.value) then Rejected
                  else Accepted(Select(Texts(columns.value))),
              slot, h.View(), code, msg)
  {
    hide Forest, Held, StackBlocks;
    if q == NULL || columns.None? {
      code, msg := RejectSetter(h, q, slot);
      return;
    }
    var names := ReadTexts(columns.value);
    if names.None? {
      code, msg := RejectSetter(h, q, slot);
    } else {
      code, msg := SetField(h, q, Select(names.value));
    }
  }

  /** df_filter: rejected calls consume nothing; an accepted one takes the expression and releases the old filter. */
  method SetDfFilter(h: Heap, q: Ptr, e: Ptr, slot: bool) returns (code: ErrorCode, msg: Message)
    requires h.Ready() && QueryArg(h.View(), q) && ExprArg(h.View(), e)
    modifies h
    ensures h.Ready()
    ensures q == NULL || e == NULL ==> SetterResult(old(h.View()), q, Rejected, slot, h.View(), code, msg)
    ensures q != NULL && e != NULL ==>
              SetterResult(old(h.View()) - {e}, q, Accepted(DfFilter(ExprAt(old(h.View()), e))), slot, h.View(), code,
                           msg)
  {
    hide Forest, Held, StackBlocks;
    if q == NULL || e == NULL {
      code, msg := RejectSetter(h, q, slot);
      return;
    }
    ghost var view0 := h.View();
    h.HeldAreLive();
    var inner := h.Unbox(e);
    StoreFilter(h, q, inner);
    code, msg := ErrorCode.Success, None;
  }

  /** `query.df_filter = Some(..)`: assigning releases the expression that was there, once. */
  method StoreFilter(h: Heap, q: Ptr, inner: Ptr)
    requires h.Valid() && q in h.View() && q !in h.Temps() && h.View()[q].QueryObj?
    requires inner in h.View() && h.Temps() == {inner} && h.View()[inner].ExprObj?
    modifies h
    ensures h.Ready()
    ensures h.View() == (old(h.View()) - {inner})[q := QueryObj(old(h.View())[q].fields,
                                                                Some(old(h.View())[inner].expr))]
  {
    hide Forest, Held, StackBlocks;
    ghost var view0 := h.View();
    ClearFilter(h, q);
    h.HeldAreLive();
    var e := h.Rebox(inner);
    h.PutFilter(q, e);
    assert h.View() == (view0 - {inner})[q := QueryObj(view0[q].fields, Some(view0[inner].expr))];
  }

  method ClearFilter(h: Heap, q: Ptr)
    requires h.Valid() && q in h.View() && q !in h.Temps() && h.View()[q].QueryObj?
    modifies h
    ensures h.Valid() && h.Temps() == old(h.Temps())
    ensures h.View() == old(h.View())[q := QueryObj(old(h.View())[q].fields, None)]
  {
    hide Forest, Held, StackBlocks, Felled, TreeDropped;
    ghost var view0 := h.View();
    h.HeldAreLive();
    var fields, hasFilter := h.ReadFields(q);
    if hasFilter {
      var replaced := h.TakeFilter(q);
      h.HeldAreLive();
      h.DropValue(replaced);
    }
    assert h.View() == view0[q := QueryObj(view0[q].fields, None)];
  }

  /* ---------- execution ---------- */

  /** What the library returned for a request: a stream of batches that may itself fail, or an error. */
  type Stream = Result<seq<Batch>, string>

  /**
   lancedb_query_execute and lancedb_vector_query_execute: the query object is consumed on every path,
   together with its filter expression.
   */
  method QueryExecute(h: Heap, q: Ptr, outcome: Result<Stream, LibError>) returns (r: Ptr, request: Option<Request>)
    requires h.Ready() && QueryArg(h.View(), q)
    modifies h
    ensures h.Ready() && (r != NULL <==> q != NULL && outcome.Ok?)
    ensures request == if q == NULL then None else Some(RequestOf(StateAt(old(h.View()), q)))
    ensures r == NULL ==> h.View() == old(h.View()) - {q}
    ensures r != NULL ==>
              && r !in old(h.View()) - {q}
              && h.View() == (old(h.View()) - {q})[r := LeafObj(QueryResult(outcome.value))]
  {
    hide Forest, Held, StackBlocks;
    h.HeldAreLive();
    if q == NULL {
      return NULL, None;
    }
    var built := TakeRequest(h, q);
    request := Some(built);
    r := NULL;
    if outcome.Ok? {
      r := h.LeafNew(QueryResult(outcome.value));
    }
  }

  /** Moves the fields of a query object into a request; the object and its filter are gone afterwards. */
  method TakeRequest(h: Heap, q: Ptr) returns (request: Request)
    requires h.Ready() && q != NULL && QueryArg(h.View(), q)
    modifies h
    ensures h.Ready() && h.View() == old(h.View()) - {q}
    ensures request == RequestOf(StateAt(old(h.View()), q))
  {
    hide Forest, Held, StackBlocks, RequestOf, Home, Felled, TreeDropped;
    h.HeldAreLive();
    var fields, hasFilter := h.ReadFields(q);
    var dfFilter: Option<Expr> := None;
    if hasFilter {
      var e := h.TakeFilter(q);
      h.HeldAreLive();
      var tree := h.ReadExpr(e);
      dfFilter := Some(tree);
      h.DropValue(e);
    }
    h.DropValue(q);
    request := BuildRequest(fields, dfFilter);
  }

  /* ---------- results ---------- */

  ghost predicate ResultArg(view: map<Ptr, Object>, r: Ptr) {
    r == NULL || (r in view && view[r].LeafObj? && view[r].leaf.QueryResult?)
  }

  function ArrowOf(b: Batch): Object
  {
    ArrowObj(|b.rows| as i64, b)
  }

  function ArrowCells(bs: seq<Batch>): (cells: seq<SlotObj>)
    ensures |cells| == |bs| && forall i :: 0 <= i < |bs| ==> cells[i] == Is(ArrowOf(bs[i]))
  {
    seq(|bs|, i requires 0 <= i < |bs| => Is(ArrowOf(bs[i])))
  }

  /** A malloc'ed array of boxed Arrow arrays. */
  function ArrowList(bs: seq<Batch>): Object
  {
    ArrayObj(|bs|, ArrowCells(bs))
  }

  /** `Box::into_raw(Box::new(FFI_ArrowArray::new(&data)))`, stored into the next cell. */
  method PushArrow(h: Heap, a: Ptr, b: Batch)
    requires h.Ready() && a in h.View() && h.View()[a].ArrayObj?
    requires |h.View()[a].slots| < h.View()[a].capacity
    modifies h
    ensures h.Ready()
    ensures var o := old(h.View())[a];
            h.View() == old(h.View())[a := ArrayObj(o.capacity, o.slots + [Is(ArrowOf(b))])]
  {
    hide Forest, Held, StackBlocks;
    ghost var view0 := h.View();
    var arrow := NewArrow(h, b);
    h.HeldAreLive();
    h.Push(a, arrow);
  }

  method NewArrow(h: Heap, b: Batch) returns (arrow: Ptr)
    requires h.Ready()
    modifies h
    ensures h.Ready() && arrow !in old(h.View()) && arrow != NULL && h.View() == old(h.View())[arrow := ArrowOf(b)]
  {
    hide Forest, Held, StackBlocks;
    ghost var view0 := h.View();
    h.HeldAreLive();
    var data := h.LeafNew(Buffers(b));
    TargetsOf([Own(data)]);
    TargetsOf([]);
    arrow := h.BoxNew(ArrowArray(|b.rows| as i64), [Own(data)]);
    assert h.View() == view0[arrow := ArrowOf(b)];
  }

  method FillArrows(h: Heap, a: Ptr, bs: seq<Batch>)
    requires h.Ready() && a in h.View() && h.View()[a] == ArrayObj(|bs|, [])
    modifies h
    ensures h.Ready() && h.View() == old(h.View())[a := ArrowList(bs)]
  {
    hide Forest, Held, StackBlocks, ArrowOf;
    ghost var view0 := h.View();
    var i := 0;
    assert ArrowCells(bs[..0]) == [];
    while i < |bs|
      invariant i <= |bs|
      invariant h.Ready() && h.View() == view0[a := ArrayObj(|bs|, ArrowCells(bs[..i]))]
    {
      PushArrow(h, a, bs[i]);
      assert ArrowCells(bs[..i + 1]) == ArrowCells(bs[..i]) + [Is(ArrowOf(bs[i]))];
      i := i + 1;
    }
    assert bs[..i] == bs;
  }

  /** The out-parameters of a conversion to Arrow; None where one was left alone. */
  datatype ArrowReply =
    ArrowReply(code: ErrorCode, batches: Option<Ptr>, schema: Option<Ptr>, count: Option<nat>, msg: Message)

  /** The heap after a conversion that failed once the rows were there: at most a message was added. */
  ghost predicate ExportFailed(view: map<Ptr, Object>, schemaError: Option<string>, slot: bool,
                               view': map<Ptr, Object>, reply: ArrowReply) {
    && reply.code == ErrorCode.Unknown && reply.batches == None
    && if schemaError.Some? then
         && reply.schema == None
         && (reply.msg.Some? <==> slot && NulFree(schemaError.value))
         && (reply.msg.Some? ==> reply.msg.value != NULL && reply.msg.value !in view)
         && view' == Delivered(view, reply.msg, schemaError.value)
       else
         && reply.schema == Some(NULL)
         && MessageFits(view, slot, UNKNOWN_ERROR, reply.msg) && view' == Delivered(view, reply.msg, UNKNOWN_ERROR)
  }

  /**
   The part shared by lancedb_query_result_to_arrow and lancedb_table_nearest_to once the rows have been
   collected. The count is written first; the schema is built before the array of batches is malloc'ed
   and released again if that fails. A schema error with a NUL byte in its text leaves the slot alone.
   */
  method ExportBatches(h: Heap, bs: seq<Batch>, schemaError: Option<string>, grant: bool, slot: bool)
    returns (reply: ArrowReply)
    requires h.Ready()
    modifies h
    ensures h.Ready() && Converted(old(h.View()), Ok(bs), schemaError, grant, slot, h.View(), reply)
  {
    hide Forest, Held, StackBlocks, Home, HomeOfObject, Columns, ArrowList, NulFree;
    if bs == [] {
      return ArrowReply(ErrorCode.Success, Some(NULL), Some(NULL), Some(0), None);
    }
    if schemaError.Some? {
      var msg := SetCleanMessage(h, slot, schemaError.value);
      return ArrowReply(ErrorCode.Unknown, None, None, Some(|bs|), msg);
    }
    reply := ExportRows(h, bs, grant, slot);
  }

  /** From the exported schema on: the schema box exists while the array is malloc'ed and filled. */
  method ExportRows(h: Heap, bs: seq<Batch>, grant: bool, slot: bool) returns (reply: ArrowReply)
    requires h.Ready() && bs != []
    modifies h
    ensures h.Ready() && Converted(old(h.View()), Ok(bs), None, grant, slot, h.View(), reply)
  {
    hide Forest, Held, StackBlocks, Home, HomeOfObject, Columns, ArrowList, NulFree;
    ghost var view0 := h.View();
    h.HeldAreLive();
    var schema, a := NewExport(h, bs, grant);
    if a == NULL {
      var msg := SetMessage(h, slot, UNKNOWN_ERROR);
      return ArrowReply(ErrorCode.Unknown, None, Some(NULL), Some(|bs|), msg);
    }
    FillArrows(h, a, bs);
    assert h.View() == view0[schema := LeafObj(Leaf.Schema(Columns(bs[0])))][a := ArrowList(bs)];
    reply := ArrowReply(ErrorCode.Success, Some(a), Some(schema), Some(|bs|), None);
  }

  /** The schema box and the malloc'ed array of an export, or neither. */
  method NewExport(h: Heap, bs: seq<Batch>, grant: bool) returns (schema: Ptr, a: Ptr)
    requires h.Ready() && bs != []
    modifies h
    ensures h.Ready() && (a != NULL <==> grant)
    ensures a == NULL ==> h.View() == old(h.View())
    ensures a != NULL ==>
              && a != schema && {a, schema} !! old(h.View()).Keys + {NULL}
              && h.View() == old(h.View())[schema := LeafObj(Leaf.Schema(Columns(bs[0])))][a := ArrayObj(|bs|, [])]
  {
    hide Forest, Held, StackBlocks, Columns, HomeOfObject, Felled, TreeDropped;
    ghost var view0 := h.View();
    h.HeldAreLive();
    schema := h.LeafNew(Leaf.Schema(Columns(bs[0])));
    h.HeldAreLive();
    a := h.Malloc(PtrArray(|bs|), grant);
    if a == NULL {
      h.DropValue(schema);
      Undone(view0, schema, LeafObj(Leaf.Schema(Columns(bs[0]))));
    }
  }

  /** Writes a message only if it is a C string, as the inline code of the Arrow conversions does. */
  method SetCleanMessage(h: Heap, slot: bool, text: string) returns (msg: Message)
    requires h.Ready()
    modifies h
    ensures h.Ready() && (msg.Some? <==> slot && NulFree(text))
    ensures msg.Some? ==> msg.value != NULL && msg.value !in old(h.View())
    ensures h.View() == Delivered(old(h.View()), msg, text)
  {
    hide Forest, Held, StackBlocks, NulFree;
    msg := None;
    if slot && NulFree(text) {
      var p := h.CStringNew(text);
      msg := Some(p);
    }
  }

  ghost function StreamAt(view: map<Ptr, Object>, r: Ptr): Stream {
    if r in view && view[r].LeafObj? && view[r].leaf.QueryResult? then view[r].leaf.stream else Err("")
  }

  /** lancedb_query_result_to_arrow: rejected arguments consume nothing, otherwise the result is consumed. */
  method ResultToArrow(h: Heap, result: Ptr, hasOutputs: bool, schemaError: Option<string>, grant: bool, slot: bool)
    returns (reply: ArrowReply)
    requires h.Ready() && ResultArg(h.View(), result)
    modifies h
    ensures h.Ready()
    ensures result == NULL || !hasOutputs ==>
              && reply.code == ErrorCode.InvalidArgument && reply.batches == None && reply.schema == None
                 && reply.count == None
              && MessageFits(old(h.View()), slot, INVALID_ARGUMENT, reply.msg)
              && h.View() == Delivered(old(h.View()), reply.msg, INVALID_ARGUMENT)
    ensures result != NULL && hasOutputs ==> Converted(old(h.View()) - {result}, StreamAt(old(h.View()), result),
                                               schemaError, grant, slot, h.View(), reply)
  {
    hide Forest, Held, StackBlocks, ExportFailed, ArrowList, Columns, Felled, TreeDropped;
    h.HeldAreLive();
    if result == NULL || !hasOutputs {
      var msg := SetMessage(h, slot, INVALID_ARGUMENT);
      return ArrowReply(ErrorCode.InvalidArgument, None, None, None, msg);
    }
    var leaf := h.ReadLeaf(result);
    h.DropValue(result);
    match leaf.stream
    case Ok(bs) =>
      reply := ExportBatches(h, bs, schemaError, grant, slot);
    case Err(text) =>
      var msg := SetMessage(h, slot, UNKNOWN_ERROR);
      reply := ArrowReply(ErrorCode.Unknown, None, None, None, msg);
  }

  /** The outcome of converting a stream of batches, from the state in which its handle is gone. */
  ghost predicate Converted(view: map<Ptr, Object>, stream: Stream, schemaError: Option<string>, grant: bool,
                            slot: bool, view': map<Ptr, Object>, reply: ArrowReply) {
    match stream
    case Err(_) =>
      && reply.code == ErrorCode.Unknown && reply.batches == None && reply.schema == None && reply.count == None
      && MessageFits(view, slot, UNKNOWN_ERROR, reply.msg) && view' == Delivered(view, reply.msg, UNKNOWN_ERROR)
    case Ok(bs) =>
      && reply.count == Some(|bs|)
      && (reply.code.Success? <==> bs == [] || (schemaError.None? && grant))
      && if !reply.code.Success? then ExportFailed(view, schemaError, slot, view', reply)
         else
           && reply.msg == None && reply.batches.Some? && reply.schema.Some?
           && if bs == [] then reply.batches.value == reply.schema.value == NULL && view' == view
              else
                && reply.batches.value != reply.schema.value
                   && {reply.batches.value, reply.schema.value} !! view.Keys + {NULL}
                && view' == view[reply.schema.value := LeafObj(Leaf.Schema(Columns(bs[0])))]
                                [reply.batches.value := ArrowList(bs)]
  }

  /* ---------- releasing ---------- */

  /**
   Every free function of the form "if the pointer is not NULL, drop the box": queries, vector queries,
   query results, readers, schemas, tables, connections, builders, sessions and registries. Whatever the
   object owns goes with it.
   */
  method BoxFree(h: Heap, p: Ptr)
    requires h.Ready() && (p == NULL || (p in h.View() && HomeOfObject(h.View()[p]) == InBox))
    modifies h
    ensures h.Ready() && h.View() == old(h.View()) - {p}
  {
    hide Forest, Held, StackBlocks, HomeOfObject, Felled, TreeDropped;
    h.HeldAreLive();
    if p != NULL {
      h.DropValue(p);
    }
  }

  /** Cells that are NULL or own a boxed Arrow array. */
  predicate ArrowCellsOnly(cells: seq<SlotObj>) {
    forall i :: 0 <= i < |cells| ==> cells[i] == NullObj || (cells[i].Is? && cells[i].obj.ArrowObj?)
  }

  /** The cells once the boxes of the first `i` have been dropped. */
  function CellsDropped(cells: seq<SlotObj>, i: nat): (r: seq<SlotObj>)
    requires i <= |cells|
    ensures |r| == |cells|
    ensures forall k :: 0 <= k < |cells| ==> r[k] == if k < i && cells[k].Is? then Gone else cells[k]
  {
    seq(|cells|, k requires 0 <= k < |cells| => if k < i && cells[k].Is? then Gone else cells[k])
  }

  /** lancedb_free_arrow_arrays; the count must be the one that was returned. */
  method FreeArrowArrays(h: Heap, list: Ptr, count: nat)
    requires h.Ready()
    requires list == NULL || (list in h.View() && h.View()[list].ArrayObj? && count == |h.View()[list].slots|
                              && ArrowCellsOnly(h.View()[list].slots))
    modifies h
    ensures h.Ready() && h.View() == old(h.View()) - {list}
  {
    hide Forest, Held, StackBlocks, Home;
    h.HeldAreLive();
    if list == NULL {
      return;
    }
    ghost var view0, cells, capacity := h.View(), h.View()[list].slots, h.View()[list].capacity;
    var i := 0;
    assert CellsDropped(cells, 0) == cells;
    while i < count
      invariant i <= count && h.Ready()
      invariant h.View() == view0[list := ArrayObj(capacity, CellsDropped(cells, i))]
    {
      h.HeldAreLive();
      var arrow := h.ReadCell(list, i);
      if arrow != NULL {
        DropArrow(h, list, i);
        assert CellsDropped(cells, i)[i := Gone] == CellsDropped(cells, i + 1);
      } else {
        assert CellsDropped(cells, i) == CellsDropped(cells, i + 1);
      }
      i := i + 1;
    }
    h.HeldAreLive();
    h.Free(list);
    assert h.View() == view0 - {list};
  }

  method DropArrow(h: Heap, list: Ptr, i: nat)
    requires h.Ready() && list in h.View() && h.View()[list].ArrayObj? && i < |h.View()[list].slots|
    requires h.View()[list].slots[i].Is? && h.View()[list].slots[i].obj.ArrowObj?
    modifies h
    ensures h.Ready()
    ensures var o := old(h.View())[list]; h.View() == old(h.View())[list := ArrayObj(o.capacity, o.slots[i := Gone])]
  {
    hide Forest, Held, StackBlocks, Felled, TreeDropped;
    h.HeldAreLive();
    var arrow := h.TakeCell(list, i);
    h.HeldAreLive();
    h.DropValue(arrow);
  }
}
