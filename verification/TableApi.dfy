/** The table calls that move handles (src/table.rs) on the heap. */
module TableApi {
  import opened Basics
  import opened Exprs
  import opened Objects
  import opened Memory
  import opened HeapModel
  import opened Messages
  import opened ExprApi
  import opened QueryApi
  import opened Requests
  import opened Marshal
  import opened VersionApi
  import Merge
  import opened Readers

  ghost predicate ReaderArg(view: map<Ptr, Object>, r: Ptr) {
    r == NULL || (r in view && view[r].ReaderObj?)
  }

  ghost function BatchesIn(view: map<Ptr, Object>, r: Ptr): seq<Batch> {
    if r in view && view[r].ReaderObj? then [view[r].batch] else []
  }

  ghost predicate BuffersArg(view: map<Ptr, Object>, data: Ptr) {
    data == NULL || (data in view && view[data].LeafObj? && view[data].leaf.Buffers?)
  }

  ghost function BatchIn(view: map<Ptr, Object>, data: Ptr): Batch {
    if data in view && view[data].LeafObj? && view[data].leaf.Buffers? then view[data].leaf.batch else Batch([])
  }

  /** The end of a call that asked the library to do something: its error, or success. */
  method Conclude(h: Heap, slot: bool, outcome: Option<Failure>) returns (s: Status)
    requires h.Valid()
    modifies h
    ensures h.Valid() && h.Temps() == old(h.Temps()) && Ended(old(h.View()), slot, s, h.View())
    ensures s.code.Success? <==> outcome.None?
    ensures outcome.Some? ==> IsFailure(s, outcome.value)
  {
    hide Forest, Held, StackBlocks, Delivered, MessageFits, IsFailure;
    s := DONE;
    if outcome.Some? {
      s := HandleError(h, slot, outcome.value);
    }
  }

  /* ---------- record batch readers ---------- */

  /**
   lancedb_record_batch_reader_from_arrow. `data` stands for the buffers the array's release callback
   would free. They are handed over once the schema has been imported: from then on they belong to the
   reader, or are released if the import of the array fails.
   */
  method ReaderFromArrow(h: Heap, data: Ptr, hasSchema: bool, hasOut: bool, schemaError: Option<Failure>,
                         importError: Option<Failure>, slot: bool) returns (s: Status, reader: Option<Ptr>)
    requires h.Ready() && BuffersArg(h.View(), data)
    modifies h
    ensures h.Ready()
    ensures var present := data != NULL && hasSchema && hasOut;
            var left := if present && schemaError.None? then old(h.View()) - {data} else old(h.View());
            && (reader.Some? <==> s.code.Success?)
            && Concluded(s, present, if schemaError.Some? then schemaError else importError)
            && (!s.code.Success? ==> Ended(left, slot, s, h.View()))
            && (s.code.Success? ==>
                  && s == DONE && reader.value != NULL && reader.value !in left
                  && h.View() == left[reader.value := ReaderObj(BatchIn(old(h.View()), data))]
                  && old(h.View())[data].leaf.Buffers?
                  && h.View()[reader.value] == ReaderObj(old(h.View())[data].leaf.batch))
  {
    hide Forest, Held, StackBlocks, Ended, IsFailure, Felled, TreeDropped;
    reader := None;
    h.HeldAreLive();
    if data == NULL || !hasSchema || !hasOut {
      s := RejectCall(h, slot);
      return;
    }
    if schemaError.Some? {
      s := HandleError(h, slot, schemaError.value);
      return;
    }
    if importError.Some? {
      h.DropValue(data);
      assert h.View() == old(h.View()) - {data};
      s := HandleError(h, slot, importError.value);
      return;
    }
    var r := BoxReader(h, data);
    s, reader := DONE, Some(r);
  }

  /** `Box::new(LanceDBRecordBatchReader::new(..))`: the box takes over the buffers. */
  method BoxReader(h: Heap, data: Ptr) returns (r: Ptr)
    requires h.Ready() && BuffersArg(h.View(), data) && data != NULL
    modifies h
    ensures h.Ready() && r != NULL && r !in old(h.View()) - {data}
    ensures h.View() == (old(h.View()) - {data})[r := ReaderObj(BatchIn(old(h.View()), data))]
  {
    hide Forest, Held, StackBlocks;
    TargetsOf([Own(data)]);
    TargetsOf([]);
    r := h.BoxNew(BatchReader, [Own(data)]);
  }

  /** `reader_box.into_inner()`: the library drains the reader, which then releases its buffers. */
  method TakeReader(h: Heap, reader: Ptr) returns (batches: seq<Batch>)
    requires h.Valid() && ReaderArg(h.View(), reader) && reader != NULL && reader !in h.Temps()
    modifies h
    ensures h.Valid() && h.Temps() == old(h.Temps()) && h.View() == old(h.View()) - {reader}
    ensures batches == BatchesIn(old(h.View()), reader)
  {
    hide Forest, Held, StackBlocks, Felled, TreeDropped;
    h.HeldAreLive();
    var data := h.ReadReader(reader);
    var leaf := h.ReadLeaf(data);
    var inner := new SingleBatchReader(leaf.batch);
    batches := inner.Drain();
    h.DropValue(reader);
  }

  /** lancedb_table_add: a call rejected for a NULL argument consumes nothing. `sent` is what the library received. */
  method TableAdd(h: Heap, table: Ptr, reader: Ptr, outcome: Option<Failure>, slot: bool)
    returns (s: Status, sent: Option<seq<Batch>>)
    requires h.Ready() && TableArg(h.View(), table) && ReaderArg(h.View(), reader)
    modifies h
    ensures h.Ready()
    ensures var present := table != NULL && reader != NULL;
            && sent == (if present then Some(BatchesIn(old(h.View()), reader)) else None)
            && (present ==> sent == Some([old(h.View())[reader].batch]))
            && Ended(if present then old(h.View()) - {reader} else old(h.View()), slot, s, h.View())
            && Concluded(s, present, outcome)
  {
    hide Forest, Held, StackBlocks, Ended, IsFailure;
    if table == NULL || reader == NULL {
      s := RejectCall(h, slot);
      return s, None;
    }
    var batches := TakeReader(h, reader);
    s := Conclude(h, slot, outcome);
    sent := Some(batches);
  }

  /** lancedb_table_df_delete: the expression is consumed even when the table is NULL. */
  method TableDfDelete(h: Heap, table: Ptr, expr: Ptr, outcome: Option<Failure>, slot: bool)
    returns (s: Status, sent: Option<Expr>)
    requires h.Ready() && TableArg(h.View(), table) && ExprArg(h.View(), expr)
    modifies h
    ensures h.Ready()
    ensures var present := table != NULL && expr != NULL;
            && sent == (if present then Some(ExprAt(old(h.View()), expr)) else None)
            && Ended(old(h.View()) - {expr}, slot, s, h.View())
            && Concluded(s, present, outcome)
  {
    hide Forest, Held, StackBlocks, Ended, IsFailure, Felled, TreeDropped;
    h.HeldAreLive();
    sent := None;
    if expr == NULL {
      assert h.View() - {expr} == h.View();
      s := RejectCall(h, slot);
      return;
    }
    var inner := h.Unbox(expr);
    if table == NULL {
      h.DropValue(inner);
      assert h.View() == old(h.View()) - {expr};
      s := RejectCall(h, slot);
      return;
    }
    h.HeldAreLive();
    var tree := h.ReadExpr(inner);
    h.DropValue(inner);
    assert h.View() == old(h.View()) - {expr};
    s := Conclude(h, slot, outcome);
    sent := Some(tree);
  }

  /* ---------- merge insert ---------- */

  datatype MergeConfig = MergeConfig(update: int, insert: int, sql: CArg, expr: Ptr)

  ghost predicate ConfigArg(view: map<Ptr, Object>, config: Option<MergeConfig>) {
    config.Some? ==> ExprArg(view, config.value.expr)
  }

  ghost function SettingsIn(view: map<Ptr, Object>, config: Option<MergeConfig>): Option<Merge.Settings> {
    if config.None? then None
    else
      var c := config.value;
      Some(Merge.Settings(c.update, c.insert, c.sql, if c.expr == NULL then None else Some(ExprAt(view, c.expr))))
  }

  /** The plan a call asks for; None when its columns or its configuration are rejected. */
  ghost function PlanIn(view: map<Ptr, Object>, columns: Option<seq<CArg>>,
                        config: Option<MergeConfig>): Option<Merge.Plan> {
    if columns.None? || columns.value == [] || !AllText(columns.value) then None
    else Merge.PlanOf(Texts(columns.value), SettingsIn(view, config))
  }

  /** The condition of a configuration; an expression is cloned, so the caller keeps its own. */
  method ReadCondition(h: Heap, c: MergeConfig) returns (r: Option<Merge.Condition>)
    requires h.Valid() && ExprArg(h.View(), c.expr)
    modifies h
    ensures h.Valid() && h.View() == old(h.View()) && h.Temps() == old(h.Temps())
    ensures r == Merge.ConditionOf(Merge.Settings(c.update, c.insert, c.sql,
                   if c.expr == NULL then None else Some(ExprAt(old(h.View()), c.expr))))
  {
    hide Forest, Held, StackBlocks;
    h.HeldAreLive();
    var hasExpr, hasSql := c.expr != NULL, !c.sql.NullArg?;
    if hasExpr && hasSql {
      return None;
    }
    if hasExpr {
      var tree := CloneForLibrary(h, c.expr);
      return Some(Merge.ExprCondition(tree));
    }
    if hasSql {
      if c.sql.BadUtf8? {
        return None;
      }
      return Some(Merge.SqlCondition(c.sql.text));
    }
    r := Some(Merge.Always);
  }

  /** Clones an expression and hands the clone to the library, which releases it. */
  method CloneForLibrary(h: Heap, p: Ptr) returns (tree: Expr)
    requires h.Valid() && ExprArg(h.View(), p) && p != NULL
    modifies h
    ensures h.Valid() && h.View() == old(h.View()) && h.Temps() == old(h.Temps()) && tree == ExprAt(old(h.View()), p)
  {
    hide Forest, Held, StackBlocks, Felled, TreeDropped;
    ghost var view0 := h.View();
    h.HeldAreLive();
    var clone := h.CloneExpr(p);
    h.HeldAreLive();
    tree := h.ReadExpr(clone);
    h.DropValue(clone);
    Undone(view0, clone, view0[p]);
  }

  /** Collects the plan; the builder is told about updates and inserts separately. */
  method BuildPlan(h: Heap, columns: Option<seq<CArg>>, config: Option<MergeConfig>) returns (r: Option<Merge.Plan>)
    requires h.Valid() && ConfigArg(h.View(), config)
    modifies h
    ensures h.Valid() && h.View() == old(h.View()) && h.Temps() == old(h.Temps())
    ensures r == PlanIn(old(h.View()), columns, config)
  {
    hide Forest, Held, StackBlocks;
    if columns.None? || columns.value == [] {
      return None;
    }
    var names := ReadTexts(columns.value);
    if names.None? {
      return None;
    }
    var condition := Some(Merge.Always);
    if config.Some? && config.value.update != 0 {
      condition := ReadCondition(h, config.value);
      if condition.None? {
        return None;
      }
    }
    var plan := Merge.Plan(names.value, None, false);
    if config.Some? {
      if config.value.update != 0 {
        plan := plan.(update := condition);
      }
      if config.value.insert != 0 {
        plan := plan.(insert := true);
      }
    } else {
      plan := plan.(update := Some(Merge.Always), insert := true);
    }
    r := Some(plan);
  }

  /** What a plan has to be, said of the arguments of the call. */
  ghost predicate PlanFits(view: map<Ptr, Object>, columns: Option<seq<CArg>>, config: Option<MergeConfig>,
                           plan: Merge.Plan) {
    && columns.Some? && |plan.on| == |columns.value|
    && (forall i :: 0 <= i < |plan.on| ==> columns.value[i].Text? && columns.value[i].text == plan.on[i])
    && (plan.insert <==> config.None? || config.value.insert != 0)
    && (plan.update.Some? <==> config.None? || config.value.update != 0)
    && (plan.update.Some? ==>
          var when := plan.update.value;
          if config.None? then when == Merge.Always
          else if config.value.expr != NULL then
            && config.value.expr in view && view[config.value.expr].ExprObj?
            && when == Merge.ExprCondition(view[config.value.expr].expr)
          else if config.value.sql.Text? then when == Merge.SqlCondition(config.value.sql.text)
          else when == Merge.Always)
  }

  /**
   A merge insert is accepted exactly with at least one column, all of them readable, and, if it updates, with at
   most one condition, which must be readable.
   */
  ghost predicate PlanAccepted(columns: Option<seq<CArg>>, config: Option<MergeConfig>) {
    && columns.Some? && |columns.value| > 0 && (forall i :: 0 <= i < |columns.value| ==> columns.value[i].Text?)
    && (config.Some? && config.value.update != 0 ==>
          if config.value.expr != NULL then config.value.sql.NullArg? else !config.value.sql.BadUtf8?)
  }

  lemma PlansFit(view: map<Ptr, Object>, columns: Option<seq<CArg>>, config: Option<MergeConfig>)
    requires ConfigArg(view, config)
    ensures PlanIn(view, columns, config).Some? <==> PlanAccepted(columns, config)
    ensures PlanIn(view, columns, config).Some? ==>
              PlanFits(view, columns, config, PlanIn(view, columns, config).value)
  {
  }

  /** What the library does to a table is decided by the two flags of the configuration. */
  lemma FlagsDecideTheMerge(view: map<Ptr, Object>, columns: Option<seq<CArg>>, config: Option<MergeConfig>,
                            rule: Merge.Rule, target: seq<Row>, source: seq<Row>)
    requires ConfigArg(view, config) && PlanIn(view, columns, config).Some?
    ensures var plan := PlanIn(view, columns, config).value;
            var rows := Merge.Merged(plan, rule, target, source);
            && |rows| >= |target|
            && (config.Some? && config.value.insert == 0 ==> |rows| == |target|)
            && (config.None? || config.value.insert != 0 ==>
                  |rows| == |target| + |Merge.UnmatchedAt(rule, target, source, plan.on)|)
            && (config.Some? && config.value.update == 0 ==> rows[..|target|] == target)
  {
    PlansFit(view, columns, config);
    var plan := PlanIn(view, columns, config).value;
    Merge.RowCount(plan, rule, target, source);
    Merge.OldRowsStay(plan, rule, target, source);
  }

  /**
   lancedb_table_merge_insert: the reader is consumed on every path, the condition expression on none.
   `sent` is the plan and the rows the library received.
   */
  method TableMergeInsert(h: Heap, table: Ptr, data: Ptr, columns: Option<seq<CArg>>, config: Option<MergeConfig>,
                          outcome: Option<Failure>, slot: bool)
                              returns (s: Status, sent: Option<(Merge.Plan, seq<Batch>)>)
    requires h.Ready() && TableArg(h.View(), table) && ReaderArg(h.View(), data) && ConfigArg(h.View(), config)
    modifies h
    ensures h.Ready()
    ensures var plan := PlanIn(old(h.View()), columns, config);
            && (sent.Some? <==> data != NULL && table != NULL && plan.Some?)
            && (sent.Some? ==> sent.value == (plan.value, BatchesIn(old(h.View()), data)))
            && (sent.Some? <==> data != NULL && table != NULL && PlanAccepted(columns, config))
            && (sent.Some? ==>
                  && PlanFits(old(h.View()), columns, config, sent.value.0)
                  && sent.value.1 == [old(h.View())[data].batch])
            && Ended(old(h.View()) - {data}, slot, s, h.View())
            && Concluded(s, sent.Some?, outcome)
  {
    hide Forest, Held, StackBlocks, Ended, IsFailure, AllText, PlanAccepted, PlanFits, PlanIn;
    PlansFit(h.View(), columns, config);
    h.HeldAreLive();
    sent := None;
    if data == NULL {
      assert h.View() - {data} == h.View();
      s := RejectCall(h, slot);
      return;
    }
    var batches := TakeReader(h, data);
    if table == NULL {
      s := RejectCall(h, slot);
      return;
    }
    ConfigWithout(old(h.View()), data, columns, config);
    var plan := BuildPlan(h, columns, config);
    if plan.None? {
      s := RejectCall(h, slot);
      return;
    }
    s := Conclude(h, slot, outcome);
    sent := Some((plan.value, batches));
  }

  lemma ConfigWithout(view: map<Ptr, Object>, data: Ptr, columns: Option<seq<CArg>>, config: Option<MergeConfig>)
    requires ReaderArg(view, data) && ConfigArg(view, config) && data != NULL
    ensures ConfigArg(view - {data}, config) && PlanIn(view - {data}, columns, config) == PlanIn(view, columns, config)
  {
  }

  /* ---------- nearest_to ---------- */

  /**
   lancedb_table_nearest_to: runs a vector query and converts its rows like
   lancedb_query_result_to_arrow, except that a failed search reports the library's error and a schema
   that cannot be exported reports an unknown error.
   */
  method NearestTo(h: Heap, table: Ptr, vector: Option<Vector>, limit: nat, column: CArg, hasOutputs: bool, slot: bool,
                   found: Result<seq<Batch>, Failure>, schemaFails: bool, grant: bool)
    returns (reply: ArrowReply, text: string, request: Option<Request>)
    requires h.Ready() && TableArg(h.View(), table)
    modifies h
    ensures h.Ready()
    ensures var accepted := table != NULL && vector.Some? && vector.value != [] && limit > 0 && hasOutputs
              && !column.BadUtf8?;
            var column' := if column.Text? then [Accepted(SearchColumn(column.text))] else [];
            && (request.Some? <==> accepted)
            && (accepted ==> request.value == RequestOf(Requests.After(
                  QueryState(NewFields(TableAt(old(h.View()), table), vector), None),
                      column' + [Accepted(Limit(limit))])))
            && (accepted ==>
                  request.value == Request(old(h.View())[table].leaf.id, vector,
                                           if column.Text? then Some(column.text) else None, Some(limit), None, None,
                                           NoFilter, None, None, None, None))
            && (!accepted ==>
                  && reply.batches == reply.schema == None && reply.count == None
                  && IsInvalidArgument(Status(reply.code, text, reply.msg))
                  && Ended(old(h.View()), slot, Status(reply.code, text, reply.msg), h.View()))
            && (accepted && found.Err? ==>
                  && reply.batches == reply.schema == None && reply.count == None
                  && IsFailure(Status(reply.code, text, reply.msg), found.error) && !reply.code.Success?
                  && Ended(old(h.View()), slot, Status(reply.code, text, reply.msg), h.View()))
            && (accepted && found.Ok? ==>
                  && text == (if reply.code.Success? then "" else UNKNOWN_ERROR)
                  && Converted(old(h.View()), Ok(found.value), if schemaFails then Some(UNKNOWN_ERROR) else None, grant,
                               slot, h.View(), reply))
  {
    hide Forest, Held, StackBlocks, Ended, IsFailure, ExportFailed, ArrowList, RequestOf, Requests.After;
    h.HeldAreLive();
    if table == NULL || vector.None? || vector.value == [] || limit == 0 || !hasOutputs || column.BadUtf8? {
      var s := RejectCall(h, slot);
      return ArrowReply(s.code, None, None, None, s.msg), s.text, None;
    }
    var leaf := h.ReadLeaf(table);
    var name: Option<string> := if column.Text? then Some(column.text) else None;
    var built := NearestToRequest(leaf.id, vector.value, limit, name);
    request := Some(built);
    match found
    case Err(f) =>
      var s := HandleError(h, slot, f);
      reply, text := ArrowReply(s.code, None, None, None, s.msg), s.text;
    case Ok(bs) =>
      reply := ExportBatches(h, bs, if schemaFails then Some(UNKNOWN_ERROR) else None, grant, slot);
      text := if reply.code.Success? then "" else UNKNOWN_ERROR;
  }

  /* ---------- listings of a table ---------- */

  /** lancedb_table_list_indices and lancedb_table_list_versions check their arguments before anything else. */
  method ListIndices(h: Heap, table: Ptr, hasOutputs: bool, outcome: Result<seq<string>, Failure>, grant: bool,
                     slot: bool)
    returns (reply: ListReply)
    requires h.Ready() && TableArg(h.View(), table)
    modifies h
    ensures h.Ready()
    ensures table == NULL || !hasOutputs ==>
              IsInvalidArgument(reply.status) && Unlisted(old(h.View()), slot, h.View(), reply) && reply.count == None
    ensures table != NULL && hasOutputs ==> Listing(old(h.View()), outcome, grant, slot, h.View(), reply)
  {
    hide Forest, Held, StackBlocks, Ended, Listing;
    if table == NULL || !hasOutputs {
      var status := RejectCall(h, slot);
      return ListReply(status, None, None);
    }
    reply := ReturnStrings(h, outcome, grant, slot);
  }

  method TableListVersions(h: Heap, table: Ptr, hasOutputs: bool, wantMetadata: bool,
                           outcome: Result<seq<VersionRecord>, Failure>,
                           refused: Refused, slot: bool) returns (reply: VersionsReply)
    requires h.Ready() && TableArg(h.View(), table)
    modifies h
    ensures h.Ready()
    ensures table == NULL || !hasOutputs ==>
              && IsInvalidArgument(reply.status) && reply.versions == reply.metadata == None && reply.count == None
              && Ended(old(h.View()), slot, reply.status, h.View())
    ensures table != NULL && hasOutputs ==> VersionsListed(old(h.View()), outcome, wantMetadata, refused, slot,
                                                           h.View(), reply)
  {
    hide Forest, Held, StackBlocks, Ended, VersionsListed;
    if table == NULL || !hasOutputs {
      var status := RejectCall(h, slot);
      return VersionsReply(status, None, None, None);
    }
    reply := ListVersions(h, outcome, wantMetadata, refused, slot);
  }
}
